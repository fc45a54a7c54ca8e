/** Tokens the spending ledger does not count: those of conditional approvals and of approvals by a human. */
module UncountedTokens {
  import opened Wrappers
  import opened PyValues
  import opened AuditLog
  import opened Gateway
  import opened GatewayRuns
  import opened RealTimes
  import opened DailyLimit
  import opened LimitFailures

  // ---------- What is handed out ----------

  ghost function CallDay(c: Call): int {
    if c.Consume? then 0 else Day(c.clock.stamp)
  }

  /** The amount a call hands a token out for, to one agent on one day. */
  ghost function Handed(env: Env, b: Books, c: Call, agent: string, day: int): real {
    var token := TokenOf(Step(env, b, c).1);
    if token.Some? && token.value.payload.subject == agent && CallDay(c) == day then GivenAmount(token.value) else 0.0
  }

  ghost function HandedSum(env: Env, calls: seq<Call>, agent: string, day: int): real {
    if calls == [] then 0.0
    else
      var front := calls[..|calls| - 1];
      HandedSum(env, front, agent, day) + Handed(env, Run(env, front), calls[|calls| - 1], agent, day)
  }

  /** A run of process_action and approval calls without negative amounts, in which the risk of every action is this. */
  ghost predicate AtScore(calls: seq<Call>, score: int) {
    && NoAmountBelow(calls, 0.0)
    && forall i :: 0 <= i < |calls| && calls[i].ProcessAction? ==> calls[i].risk.score == score
  }

  ghost predicate HandsOutMore(env: Env, score: int, m: real) {
    exists calls, agent, day :: AtScore(calls, score) && HandedSum(env, calls, agent, day) > m
  }

  // ---------- Calls the ledger does not see ----------

  /** Below 40 every call is a payment; from 40 on every second one is a human's approval of the one before. */
  ghost function UnseenCall(route: Route, amount: real, score: int, i: nat, now: int): Call {
    if score < 40 || i % 2 == 0 then Paying(route, "a", amount, score, i, now)
    else Approve(Numeral(i - 1), map[], FreshIds(Numeral(i), Numeral(i)), Clock(now, now, now))
  }

  ghost function Unseen(route: Route, amount: real, score: int, n: nat, now: int): (calls: seq<Call>)
    ensures |calls| == n
  {
    seq(n, i requires 0 <= i < n => UnseenCall(route, amount, score, i, now))
  }

  lemma UnseenIsGood(route: Route, amount: real, score: int, n: nat, now: int)
    requires amount >= 0.0
    ensures AtScore(Unseen(route, amount, score, n, now), score)
  {
    NumberedIsFresh(Unseen(route, amount, score, n, now));
  }

  lemma UnseenUnfolds(env: Env, route: Route, amount: real, score: int, n: nat, now: int, agent: string, day: int)
    requires n > 0
    ensures var front, last := Unseen(route, amount, score, n - 1, now), UnseenCall(route, amount, score, n - 1, now);
      && Run(env, Unseen(route, amount, score, n, now)) == Step(env, Run(env, front), last).0
      && HandedSum(env, Unseen(route, amount, score, n, now), agent, day)
         == HandedSum(env, front, agent, day) + Handed(env, Run(env, front), last, agent, day)
  {
    hide Step, UnseenCall, Handed;
    var calls := Unseen(route, amount, score, n, now);
    assert calls[..n - 1] == Unseen(route, amount, score, n - 1, now);
  }

  lemma UnseenNothing(env: Env, route: Route, amount: real, score: int, now: int, agent: string, day: int)
    ensures NoneApproved(Run(env, Unseen(route, amount, score, 0, now)).records)
    ensures HandedSum(env, Unseen(route, amount, score, 0, now), agent, day) == 0.0
  {
    assert Unseen(route, amount, score, 0, now) == [];
  }

  /** A conditional approval: a token, and nothing used. */
  lemma ConditionalIsUnseen(env: Env, b: Books, route: Route, amount: real, score: int, k: nat, now: int, limit: real)
    requires env.policy.dailyLimit == Some(limit) && OpenRoute(env.policy, route) && Affordable(env.policy, amount)
    requires 31 <= score < 40 && amount <= limit && NoneApproved(b.records)
    ensures NoneApproved(Step(env, b, Paying(route, "a", amount, score, k, now)).0.records)
    ensures Handed(env, b, Paying(route, "a", amount, score, k, now), "a", Day(now)) == amount
  {
    hide Step, OpenRoute, Affordable, Used, LedgerAmount, GivenAmount;
    NothingSpent(b.records, StartOfDay(now), PyStr("a"), PyStr("wallet"));
    var r := PayingIsLogged(env, b, route, "a", amount, score, k, now);
  }

  lemma {:induction false} ConditionalRun(env: Env, route: Route, amount: real, score: int, n: nat, now: int,
                                          limit: real)
    requires env.policy.dailyLimit == Some(limit) && OpenRoute(env.policy, route) && Affordable(env.policy, amount)
    requires 31 <= score < 40 && amount <= limit
    ensures NoneApproved(Run(env, Unseen(route, amount, score, n, now)).records)
    ensures HandedSum(env, Unseen(route, amount, score, n, now), "a", Day(now)) == Times(n, amount)
  {
    hide Step, Run, Paying, OpenRoute, Affordable, NoneApproved, Unseen, Handed, HandedSum, Times;
    OneMoreTime(n, amount);
    if n == 0 {
      UnseenNothing(env, route, amount, score, now, "a", Day(now));
    } else {
      ConditionalRun(env, route, amount, score, n - 1, now, limit);
      UnseenUnfolds(env, route, amount, score, n, now, "a", Day(now));
      ConditionalIsUnseen(env, Run(env, Unseen(route, amount, score, n - 1, now)), route, amount, score, n - 1, now,
        limit);
    }
  }

  // ---------- Approved by a human ----------

  /** A payment that a human is asked about: an approval is opened, no token is handed out. */
  lemma AskedIsOpened(env: Env, b: Books, route: Route, amount: real, score: int, k: nat, now: int, limit: real)
    requires env.policy.dailyLimit == Some(limit) && OpenRoute(env.policy, route) && Affordable(env.policy, amount)
    requires score >= 40 && amount <= limit && NoneApproved(b.records)
    ensures var c := Paying(route, "a", amount, score, k, now);
      var (after, reply) := Step(env, b, c);
      && NoneApproved(after.records) && TokenOf(reply).None?
      && after.approvals == b.approvals + [Opened(ActionRequest(env, c.input, now), "RISK_SCORE_THRESHOLD", score, [],
                                                  Numeral(k), now)]
  {
    var i, clock := PaymentInput(route, "a", amount), Clock(now, now, now);
    hide Used, OpenRoute, ActionRequest, ProcessReason, LedgerRequest, RecordHash, Opened, Affordable;
    NothingSpent(b.records, StartOfDay(now), PyStr("a"), PyStr("wallet"));
    PaymentPasses(env, b, route, "a", amount, now);
  }

  /** Who asks for how much in an opened approval. */
  lemma OpenedFor(env: Env, route: Route, amount: real, score: int, id: string, now: int)
    ensures var a := Opened(ActionRequest(env, PaymentInput(route, "a", amount), now), "RISK_SCORE_THRESHOLD", score,
                            [], id, now);
      && a.approvalId == id && a.status == Pending && a.agentId == "a" && a.expiresAt == now + APPROVAL_TTL
      && Float(Get(a.request, "amount", PyNum(0.0))) == amount
  {
    hide ActionRequest;
    ActionLookups(env, PaymentInput(route, "a", amount), now);
  }

  /** The approval that was opened last, approved in time: a token, and nothing used. */
  lemma GrantIsUnseen(env: Env, b: Books, a: Approval, jti: string, now: int)
    requires b.approvals != [] && b.approvals[|b.approvals| - 1] == a && DistinctIds(b.approvals)
    requires a.status == Pending && now < a.expiresAt && NoneApproved(b.records)
    ensures var c := Approve(a.approvalId, map[], FreshIds(jti, jti), Clock(now, now, now));
      && NoneApproved(Step(env, b, c).0.records)
      && Handed(env, b, c, a.agentId, Day(now)) == Float(Get(a.request, "amount", PyNum(0.0)))
  {
    hide RecordHash, ExpiryRecords, Annotate;
    var last := |b.approvals| - 1;
    ExpiryApprovesNothing(b.approvals, now, now);
    FindUnique(b.approvals, last);
    FindRestatused(b.approvals, ExpireAll(b.approvals, now), a.approvalId);
    assert ExpireAll(b.approvals, now)[last] == a;
  }

  /** Asked and approved at once: a token for the amount, and nothing used. */
  lemma HumanRound(env: Env, b: Books, route: Route, amount: real, score: int, k: nat, now: int, limit: real)
    requires env.policy.dailyLimit == Some(limit) && OpenRoute(env.policy, route) && Affordable(env.policy, amount)
    requires score >= 40 && amount <= limit && NoneApproved(b.records)
    requires DistinctIds(b.approvals) && Find(b.approvals, Numeral(k)).None?
    ensures var asks := Paying(route, "a", amount, score, k, now);
      var grants := Approve(Numeral(k), map[], FreshIds(Numeral(k + 1), Numeral(k + 1)), Clock(now, now, now));
      var asked := Step(env, b, asks).0;
      && NoneApproved(Step(env, asked, grants).0.records)
      && Handed(env, b, asks, "a", Day(now)) == 0.0
      && Handed(env, asked, grants, "a", Day(now)) == amount
  {
    hide Step, OpenRoute, Affordable, NoneApproved, DistinctIds, Opened, ActionRequest, GivenAmount;
    AskedIsOpened(env, b, route, amount, score, k, now, limit);
    var a := Opened(ActionRequest(env, PaymentInput(route, "a", amount), now), "RISK_SCORE_THRESHOLD", score, [],
                    Numeral(k), now);
    OpenedFor(env, route, amount, score, Numeral(k), now);
    FindAppended(b.approvals, a, Numeral(k));
    GrantIsUnseen(env, Step(env, b, Paying(route, "a", amount, score, k, now)).0, a, Numeral(k + 1), now);
  }

  /** Numbers that no call has drawn yet belong to no approval. */
  lemma NextIsUnknown(env: Env, calls: seq<Call>)
    requires Numbered(calls)
    ensures DistinctIds(Run(env, calls).approvals) && Find(Run(env, calls).approvals, Numeral(|calls|)).None?
  {
    NumberedIsFresh(calls);
    ApprovalsAreConserved(env, calls);
    hide Run, FreshOf, JtiOf;
    var approvals := Run(env, calls).approvals;
    forall i | 0 <= i < |approvals| ensures approvals[i].approvalId != Numeral(|calls|) {
      assert Drawn(approvals[i].approvalId, calls);
      var k :| 0 <= k < |calls| && approvals[i].approvalId in FreshOf(calls[k]);
      assert FreshOf(calls[k]) <= {Numeral(k)} && |Numeral(k)| == k;
    }
    FindNone(approvals, Numeral(|calls|));
  }

  lemma UnseenIsNumbered(route: Route, amount: real, score: int, n: nat, now: int)
    ensures Numbered(Unseen(route, amount, score, n, now))
  {
  }

  lemma {:induction false} HumanRun(env: Env, route: Route, amount: real, score: int, n: nat, now: int, limit: real)
    requires env.policy.dailyLimit == Some(limit) && OpenRoute(env.policy, route) && Affordable(env.policy, amount)
    requires score >= 40 && amount <= limit
    ensures NoneApproved(Run(env, Unseen(route, amount, score, 2 * n, now)).records)
    ensures HandedSum(env, Unseen(route, amount, score, 2 * n, now), "a", Day(now)) == Times(n, amount)
  {
    hide Step, Run, Paying, OpenRoute, Affordable, NoneApproved, Unseen, Handed, HandedSum, Times, Numbered, Numeral;
    OneMoreTime(n, amount);
    if n == 0 {
      UnseenNothing(env, route, amount, score, now, "a", Day(now));
    } else {
      var k := 2 * (n - 1);
      var calls := Unseen(route, amount, score, k, now);
      HumanRun(env, route, amount, score, n - 1, now, limit);
      UnseenIsNumbered(route, amount, score, k, now);
      NextIsUnknown(env, calls);
      HumanRound(env, Run(env, calls), route, amount, score, k, now, limit);
      UnseenUnfolds(env, route, amount, score, k + 1, now, "a", Day(now));
      UnseenUnfolds(env, route, amount, score, k + 2, now, "a", Day(now));
      assert k % 2 == 0 && (k + 1) % 2 == 1 && k + 2 == 2 * n;
    }
  }

  // ---------- When nothing can be handed out ----------

  /** Nothing is approved without a human, and no approval is about a positive amount. */
  ghost predicate Modest(b: Books) {
    && NoneApproved(b.records)
    && forall i :: 0 <= i < |b.approvals| ==> Float(Get(b.approvals[i].request, "amount", PyNum(0.0))) <= 0.0
  }

  ghost predicate NothingFits(p: Policy) {
    p.dailyLimit.Some? && (p.dailyLimit.value <= 0.0 || (p.maxAmount.Some? && p.maxAmount.value <= 0.0))
  }

  lemma ProcessStaysModest(env: Env, b: Books, i: ActionInput, risk: RiskAnswer, ids: FreshIds, clock: Clock,
                           agent: string, day: int)
    requires NothingFits(env.policy) && Modest(b) && risk.score >= 31
    ensures Modest(Step(env, b, ProcessAction(i, risk, ids, clock)).0)
    ensures Handed(env, b, ProcessAction(i, risk, ids, clock), agent, day) <= 0.0
  {
    hide ActionRequest, ProcessReason, LedgerRequest, RecordHash;
    var used := AllowedFits(env, b, i, clock, env.policy.dailyLimit.value);
    ActionLookups(env, i, clock.check);
    IssuedAmount(env, i, ids, clock);
  }

  lemma RulingStaysModest(env: Env, b: Books, c: Call, agent: string, day: int)
    requires Modest(b) && (c.Approve? || c.Reject? || c.Consume?)
    ensures Modest(Step(env, b, c).0)
    ensures Handed(env, b, c, agent, day) <= 0.0
  {
    hide RecordHash, ExpiryRecords, Annotate, GivenAmount, Handed, Modest, NoneApproved;
    match c
    case Approve(id, submit, ids, clock) => ApproveStaysModest(env, b, id, submit, ids, clock, agent, day);
    case Reject(id, clock) => RejectStaysModest(env, b, id, clock, agent, day);
    case Consume(token, now) => ConsumeStaysModest(env, b, token, now, agent, day);
  }

  lemma ApproveStaysModest(env: Env, b: Books, id: string, submit: Dict, ids: FreshIds, clock: Clock,
                           agent: string, day: int)
    requires Modest(b)
    ensures Modest(Step(env, b, Approve(id, submit, ids, clock)).0)
    ensures Handed(env, b, Approve(id, submit, ids, clock), agent, day) <= 0.0
  {
    hide RecordHash, ExpiryRecords, Annotate;
    ExpiryApprovesNothing(b.approvals, clock.check, clock.stamp);
  }

  lemma RejectStaysModest(env: Env, b: Books, id: string, clock: Clock, agent: string, day: int)
    requires Modest(b)
    ensures Modest(Step(env, b, Reject(id, clock)).0)
    ensures Handed(env, b, Reject(id, clock), agent, day) <= 0.0
  {
    hide RecordHash, ExpiryRecords, GivenAmount;
    ExpiryApprovesNothing(b.approvals, clock.check, clock.stamp);
  }

  lemma ConsumeStaysModest(env: Env, b: Books, token: ActionToken, now: int, agent: string, day: int)
    requires Modest(b)
    ensures Modest(Step(env, b, Consume(token, now)).0)
    ensures Handed(env, b, Consume(token, now), agent, day) <= 0.0
  {
    hide GivenAmount;
  }

  lemma {:induction false} NothingHanded(env: Env, calls: seq<Call>, score: int, agent: string, day: int)
    requires NothingFits(env.policy) && score >= 31
    requires forall i :: 0 <= i < |calls| ==>
      !calls[i].RequestExecution? && (calls[i].ProcessAction? ==> calls[i].risk.score == score)
    ensures Modest(Run(env, calls)) && HandedSum(env, calls, agent, day) <= 0.0
  {
    if calls != [] {
      hide Step, Modest, Handed;
      var front, last := calls[..|calls| - 1], calls[|calls| - 1];
      assert forall i :: 0 <= i < |front| ==> front[i] == calls[i];
      NothingHanded(env, front, score, agent, day);
      if last.ProcessAction? {
        ProcessStaysModest(env, Run(env, front), last.input, last.risk, last.ids, last.clock, agent, day);
      } else {
        RulingStaysModest(env, Run(env, front), last, agent, day);
      }
    }
  }

  /** At a risk that is approved conditionally, or by a human, tokens can be handed out to one agent on one day for more
      than any amount, if and only if the daily limit and the maximum let a positive amount through at all: the limit is
      checked for each request, and what these tokens are for is never counted. */
  lemma TokensExceedIff(env: Env, route: Route, limit: real, score: int)
    requires env.policy.dailyLimit == Some(limit) && OpenRoute(env.policy, route) && score >= 31
    ensures (forall m: real :: HandsOutMore(env, score, m))
       <==> limit > 0.0 && (env.policy.maxAmount.Some? ==> env.policy.maxAmount.value > 0.0)
  {
    hide OpenRoute, HandsOutMore;
    if NothingFits(env.policy) {
      NotMoreThanNothing(env, score);
    } else {
      forall m: real ensures HandsOutMore(env, score, m) {
        MoreThan(env, route, limit, score, m);
      }
    }
  }

  lemma NotMoreThanNothing(env: Env, score: int)
    requires NothingFits(env.policy) && score >= 31
    ensures !HandsOutMore(env, score, 0.0)
  {
    hide HandedSum, Run, FreshRun;
    forall calls, agent, day | AtScore(calls, score) ensures HandedSum(env, calls, agent, day) <= 0.0 {
      NothingHanded(env, calls, score, agent, day);
    }
  }

  lemma MoreThan(env: Env, route: Route, limit: real, score: int, m: real)
    requires env.policy.dailyLimit == Some(limit) && OpenRoute(env.policy, route) && score >= 31
    requires limit > 0.0 && (env.policy.maxAmount.Some? ==> env.policy.maxAmount.value > 0.0)
    ensures HandsOutMore(env, score, m)
  {
    hide HandedSum, Run, OpenRoute, AtScore, Unseen, Times;
    var amount := if env.policy.maxAmount.Some? && env.policy.maxAmount.value < limit
      then env.policy.maxAmount.value else limit;
    var n := EnoughTimes(m, amount);
    if score < 40 {
      ConditionalRun(env, route, amount, score, n, 0, limit);
      UnseenIsGood(route, amount, score, n, 0);
    } else {
      HumanRun(env, route, amount, score, n, 0, limit);
      UnseenIsGood(route, amount, score, 2 * n, 0);
    }
  }
}
