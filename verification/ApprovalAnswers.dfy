/** Approvals over whole runs: what is granted, in terms of the calls that came before, and that no token is handed out
    for what is not on the lists of the policy. */
module ApprovalAnswers {
  import opened Wrappers
  import opened PyValues
  import opened AuditLog
  import opened Gateway
  import opened GatewayRuns
  import opened GatewayAnswers
  import RP = RuntimePolicy

  // ---------- Asking and ruling ----------

  ghost predicate Ruling(c: Call) {
    c.Approve? || c.Reject?
  }

  /** A call after which a human is asked: only the risk stands against the payment. */
  ghost predicate Asks(env: Env, b: Books, c: Call) {
    || (c.ProcessAction? && c.risk.score >= 40
        && InPolicy(env.policy, c.input) && InLimit(env.policy, b.records, c.input, c.clock.check))
    || (c.RequestExecution? && !c.risk.demo && c.risk.score >= 40
        && env.policy.maxAmount.Some? && LegacyGuards(env.policy, c.request))
  }

  /** The request is the one this call asks about. */
  ghost predicate Names(c: Call, request: Dict) {
    && (c.ProcessAction? ==> ForPayment(request, c.input))
    && (c.RequestExecution? ==> ForRequest(request, c.request))
  }

  lemma ProcessOpens(env: Env, b: Books, i: ActionInput, risk: RiskAnswer, ids: FreshIds, clock: Clock)
    returns (a: Approval)
    ensures var c := ProcessAction(i, risk, ids, clock);
      && Step(env, b, c).0.approvals == (if Asks(env, b, c) then b.approvals + [a] else b.approvals)
      && a.approvalId == ids.approvalId && a.status == Pending && a.expiresAt == clock.check + 3600
      && a.agentId == i.agentId && Names(c, a.request)
  {
    hide ProcessReason, ActionRequest, LedgerRequest, RecordHash, InPolicy, InLimit;
    NoReasonIff(env, b, i, clock);
    ActionEntries(env, i, clock.check);
    a := Opened(ActionRequest(env, i, clock.check), "RISK_SCORE_THRESHOLD", risk.score, risk.flags, ids.approvalId,
      clock.check);
  }

  lemma ExecutionOpens(env: Env, b: Books, c: Call) returns (a: Approval)
    requires c.RequestExecution?
    ensures Step(env, b, c).0.approvals == (if Asks(env, b, c) then b.approvals + [a] else b.approvals)
    ensures a.approvalId == c.ids.approvalId && a.status == Pending && a.expiresAt == c.clock.check + 3600
    ensures Names(c, a.request)
  {
    hide LegacyRequest, LegacyReason, Normalize, Annotate, RecordHash, LedgerRequest, LegacyGuards;
    hide RuntimePayment, RuntimeUsed, RP.Evaluate;
    LegacyReasonIff(env, c.agentDid, c.request);
    LegacyReads(env, c.agentDid, c.request);
    a := Opened(LegacyRequest(c.agentDid, Normalize(env, c.request)), "RISK_SCORE_THRESHOLD", c.risk.score,
      c.risk.flags, c.ids.approvalId, c.clock.check);
  }

  /** A call that is no ruling opens one approval if it asks, and leaves all others alone. */
  lemma AskOpens(env: Env, b: Books, c: Call) returns (a: Approval)
    requires !Ruling(c)
    ensures Step(env, b, c).0.approvals == (if Asks(env, b, c) then b.approvals + [a] else b.approvals)
    ensures Asks(env, b, c) ==>
      && a.approvalId == c.ids.approvalId && a.status == Pending && a.expiresAt == c.clock.check + 3600
      && Names(c, a.request)
  {
    match c
    case ProcessAction(i, risk, ids, clock) => a := ProcessOpens(env, b, i, risk, ids, clock);
    case RequestExecution(_, _, _, _, _, _, _) => a := ExecutionOpens(env, b, c);
    case Consume(_, _) =>
      a := Approval("", PyNone, "", "", 0, [], Pending, 0, 0, map[]);
  }

  // ---------- One approval through a run ----------

  ghost function Entry(approvals: seq<Approval>, id: string): (a: Option<Approval>)
    ensures a.Some? <==> StatusOf(approvals, id).Some?
    ensures a.Some? ==> a.value.approvalId == id && a.value in approvals
  {
    var i := Find(approvals, id);
    if i.Some? then Some(approvals[i.value]) else None
  }

  /** What a ruling on `k` makes of an approval. */
  ghost function Ruled(a: Approval, k: string, s: ApprovalStatus, now: int): Approval {
    if a.status != Pending then a
    else if now >= a.expiresAt then a.(status := Expired)
    else if a.approvalId == k then a.(status := s)
    else a
  }

  lemma EntryRuled(b: Books, k: string, s: ApprovalStatus, clock: Clock, id: string)
    requires DistinctIds(b.approvals) && s != Pending
    ensures Entry(AfterRuling(b, k, s, clock), id)
      == if Entry(b.approvals, id).Some? then Some(Ruled(Entry(b.approvals, id).value, k, s, clock.check)) else None
  {
    hide Find;
    var expired := ExpireAll(b.approvals, clock.check);
    FindRestatused(b.approvals, expired, id);
    FindRestatused(b.approvals, expired, k);
    var i := Find(expired, k);
    if i.Some? && expired[i.value].status == Pending {
      FindRestatused(expired, AfterRuling(b, k, s, clock), id);
      FindUnique(expired, i.value);
    }
  }

  lemma EntryAppended(approvals: seq<Approval>, a: Approval, id: string)
    requires DistinctIds(approvals) && Find(approvals, a.approvalId).None?
    ensures Entry(approvals + [a], id) == if id == a.approvalId then Some(a) else Entry(approvals, id)
  {
    hide Find;
    ExpiryFoundLike(approvals, a, id);
  }

  lemma ExpiryFoundLike(approvals: seq<Approval>, a: Approval, id: string)
    requires DistinctIds(approvals) && Find(approvals, a.approvalId).None?
    ensures Find(approvals + [a], id) == if id == a.approvalId then Some(|approvals|) else Find(approvals, id)
  {
    hide Find;
    FindAppended(approvals, a, id);
    ExpiryFound(approvals, a, id);
  }

  lemma RulingApprovals(env: Env, b: Books, c: Call)
    requires Ruling(c)
    ensures Step(env, b, c).0.approvals
      == AfterRuling(b, c.approvalId, if c.Approve? then Approved else Rejected, c.clock)
  {
    hide Step, Apply, AfterRuling;
    var e := CallEffect(env, b, c);
    EffectApprovals(b, e);
  }

  /** Call `k` of the run asks, under this id. */
  ghost predicate OpensAt(env: Env, calls: seq<Call>, k: nat, id: string)
    requires k < |calls|
  {
    Asks(env, Run(env, calls[..k]), calls[k]) && FreshOf(calls[k]) == {id}
  }

  /** Since call `k` no ruling was on this id, and none came when its hour was over. */
  ghost predicate Undisturbed(calls: seq<Call>, k: nat, n: nat, id: string)
    requires k < n <= |calls| && !Ruling(calls[k]) && !calls[k].Consume?
  {
    forall m :: k < m < n && Ruling(calls[m]) ==>
      calls[m].approvalId != id && calls[m].clock.check < calls[k].clock.check + 3600
  }

  lemma OpenerAsks(env: Env, calls: seq<Call>, k: nat, id: string)
    requires k < |calls|
    ensures OpensAt(env, calls, k, id) ==> !Ruling(calls[k]) && !calls[k].Consume? && calls[k].ids.approvalId == id
  {
    hide Run, InPolicy, InLimit, LegacyGuards;
    assert OpensAt(env, calls, k, id) && calls[k].ProcessAction? ==> calls[k].ids.approvalId in {id};
    assert OpensAt(env, calls, k, id) && calls[k].RequestExecution? ==> calls[k].ids.approvalId in {id};
  }

  /** In a run with fresh ids, the ids in the books are distinct and those of the next call are not among them. */
  lemma NextIsFresh(env: Env, calls: seq<Call>, n: nat)
    requires FreshApprovalIds(calls) && n <= |calls|
    ensures DistinctIds(Run(env, calls[..n]).approvals)
    ensures n < |calls| ==> forall id :: id in FreshOf(calls[n]) ==> Find(Run(env, calls[..n]).approvals, id).None?
  {
    hide Run, FreshOf, IdsFrom, CountTagged;
    PrefixIsFresh(calls, n);
    ApprovalsAreConserved(env, calls[..n]);
    if n < |calls| {
      PrefixIsFresh(calls, n + 1);
      assert calls[..n + 1][..n] == calls[..n] && calls[..n + 1][n] == calls[n];
      forall id | id in FreshOf(calls[n]) ensures Find(Run(env, calls[..n]).approvals, id).None? {
        FreshIsUnknown(Run(env, calls[..n]).approvals, calls[..n + 1], id);
      }
    }
  }

  /** What one more call of the run makes of an entry. */
  lemma EntryStep(env: Env, calls: seq<Call>, n: nat, id: string)
    requires FreshApprovalIds(calls) && n < |calls|
    ensures var before, after := Entry(Run(env, calls[..n]).approvals, id),
              Entry(Run(env, calls[..n + 1]).approvals, id);
      var c := calls[n];
      && (Ruling(c) && before.Some? ==>
            after == Some(Ruled(before.value, c.approvalId, if c.Approve? then Approved else Rejected, c.clock.check)))
      && (!Ruling(c) && before.Some? ==> after == before)
      && (before.None? ==> (after.Some? <==> OpensAt(env, calls, n, id)))
      && (OpensAt(env, calls, n, id) ==>
            after.Some? && after.value.status == Pending && after.value.expiresAt == c.clock.check + 3600
            && Names(c, after.value.request))
  {
    hide Step, Find, Asks, Names, AfterRuling, Entry, Ruled, DistinctIds;
    var b, c := Run(env, calls[..n]), calls[n];
    assert calls[..n + 1][..n] == calls[..n] && calls[..n + 1][n] == c;
    assert Run(env, calls[..n + 1]) == Step(env, b, c).0;
    hide Run;
    NextIsFresh(env, calls, n);
    OpenerAsks(env, calls, n, id);
    if Ruling(c) {
      RulingApprovals(env, b, c);
      EntryRuled(b, c.approvalId, if c.Approve? then Approved else Rejected, c.clock, id);
    } else {
      var a := AskOpens(env, b, c);
      if Asks(env, b, c) {
        AskDraws(env, b, c);
        assert a.approvalId in FreshOf(c);
        EntryAppended(b.approvals, a, id);
        NoneIsNone(b.approvals, a.approvalId);
      }
    }
  }

  lemma AskDraws(env: Env, b: Books, c: Call)
    requires Asks(env, b, c)
    ensures !Ruling(c) && !c.Consume? && FreshOf(c) == {c.ids.approvalId}
  {
    hide InPolicy, InLimit, LegacyGuards;
  }

  lemma NoneIsNone(approvals: seq<Approval>, id: string)
    requires Find(approvals, id).None?
    ensures Entry(approvals, id).None?
  {
  }

  /** An approval that call `k` has opened is there ever after, about the same request and for the same hour; it is
      pending exactly as long as no ruling was on it and none came when its hour was over. */
  lemma {:induction false} PendingIff(env: Env, calls: seq<Call>, k: nat, n: nat, id: string)
    requires FreshApprovalIds(calls) && k < n <= |calls|
    ensures OpensAt(env, calls, k, id) ==>
      var a := Entry(Run(env, calls[..n]).approvals, id);
      && !Ruling(calls[k]) && !calls[k].Consume?
      && a.Some? && a.value.expiresAt == calls[k].clock.check + 3600 && Names(calls[k], a.value.request)
      && (a.value.status == Pending <==> Undisturbed(calls, k, n, id))
    decreases n
  {
    hide Run, Entry, Names, OpensAt, FreshApprovalIds;
    OpenerAsks(env, calls, k, id);
    if OpensAt(env, calls, k, id) {
      EntryStep(env, calls, n - 1, id);
      if k < n - 1 {
        PendingIff(env, calls, k, n - 1, id);
        EntryIsOf(Run(env, calls[..n - 1]).approvals, id);
      }
    }
  }

  lemma EntryIsOf(approvals: seq<Approval>, id: string)
    ensures Entry(approvals, id).Some? ==> Entry(approvals, id).value.approvalId == id
  {
  }

  lemma {:induction false} EntryHasOpener(env: Env, calls: seq<Call>, n: nat, id: string)
    requires FreshApprovalIds(calls) && n <= |calls|
    ensures Entry(Run(env, calls[..n]).approvals, id).Some? ==> exists k: nat :: k < n && OpensAt(env, calls, k, id)
  {
    if n == 0 {
      assert Run(env, calls[..0]).approvals == [];
    } else {
      hide Run, Entry, OpensAt, FreshApprovalIds;
      EntryHasOpener(env, calls, n - 1, id);
      EntryStep(env, calls, n - 1, id);
      assert OpensAt(env, calls, n - 1, id) ==> exists k: nat :: k < n && OpensAt(env, calls, k, id);
    }
  }

  // ---------- What is granted ----------

  /** What the answer to a ruling depends on. */
  lemma RulingReply(env: Env, b: Books, c: Call)
    requires Ruling(c) && DistinctIds(b.approvals)
    ensures var reply, a := Step(env, b, c).1, Entry(b.approvals, c.approvalId);
      && (a.None? ==> reply == NotFound)
      && (a.Some? ==>
            var timely := a.value.status == Pending && c.clock.check < a.value.expiresAt;
            && (c.Approve? && timely ==> reply.Granted? && reply.token.payload.action == a.value.request)
            && (c.Reject? && timely ==> reply == RejectedReply)
            && (!timely ==> reply == InvalidStatus(if a.value.status == Pending then Expired else a.value.status)))
  {
    hide Find, Sealed, GrantRecord, RejectionRecord, ExpiryRecords;
    FindRestatused(b.approvals, ExpireAll(b.approvals, c.clock.check), c.approvalId);
  }

  /** Call `k` opened the approval that this ruling is about, and it is still open when the ruling comes. */
  ghost predicate OpenFor(env: Env, calls: seq<Call>, k: nat, i: nat)
    requires k < i < |calls| && Ruling(calls[i])
  {
    && OpensAt(env, calls, k, calls[i].approvalId)
    && !Ruling(calls[k]) && !calls[k].Consume?
    && Undisturbed(calls, k, i, calls[i].approvalId)
    && calls[i].clock.check < calls[k].clock.check + 3600
  }

  ghost predicate Timely(approvals: seq<Approval>, c: Call)
    requires Ruling(c)
  {
    var a := Entry(approvals, c.approvalId);
    a.Some? && a.value.status == Pending && c.clock.check < a.value.expiresAt
  }

  lemma OpenForIsTimely(env: Env, calls: seq<Call>, k: nat, i: nat)
    requires FreshApprovalIds(calls) && k < i < |calls| && Ruling(calls[i])
    ensures OpensAt(env, calls, k, calls[i].approvalId) ==>
      && Entry(Run(env, calls[..i]).approvals, calls[i].approvalId).Some?
      && (OpenFor(env, calls, k, i) <==> Timely(Run(env, calls[..i]).approvals, calls[i]))
  {
    hide Run, Entry, OpensAt, FreshApprovalIds, Undisturbed, Names;
    PendingIff(env, calls, k, i, calls[i].approvalId);
  }

  lemma TimelyIff(env: Env, calls: seq<Call>, i: nat)
    requires FreshApprovalIds(calls) && i < |calls| && Ruling(calls[i])
    ensures Timely(Run(env, calls[..i]).approvals, calls[i]) <==> exists k: nat :: k < i && OpenFor(env, calls, k, i)
    ensures Entry(Run(env, calls[..i]).approvals, calls[i].approvalId).None?
      <==> forall k: nat :: k < i ==> !OpensAt(env, calls, k, calls[i].approvalId)
  {
    hide Run, Entry, OpensAt, FreshApprovalIds, Undisturbed;
    var id := calls[i].approvalId;
    EntryHasOpener(env, calls, i, id);
    if k: nat :| k < i && OpensAt(env, calls, k, id) {
      OpenForIsTimely(env, calls, k, i);
    }
    if k: nat :| k < i && OpenFor(env, calls, k, i) {
      OpenForIsTimely(env, calls, k, i);
    }
  }

  /** The answer to an approve or reject call, in terms of the calls before it alone. It is carried out if and only if
      an earlier call asked under this id, no ruling on it has come since, none that came found its hour over, and
      neither does this one. An id nobody asked under is unknown. */
  lemma RulingAnswerIff(env: Env, calls: seq<Call>, i: nat)
    requires FreshApprovalIds(calls) && i < |calls| && Ruling(calls[i])
    ensures var reply := Step(env, Run(env, calls[..i]), calls[i]).1;
      && (calls[i].Approve? ==> (reply.Granted? <==> exists k: nat :: k < i && OpenFor(env, calls, k, i)))
      && (calls[i].Reject? ==> (reply == RejectedReply <==> exists k: nat :: k < i && OpenFor(env, calls, k, i)))
      && (reply == NotFound <==> forall k: nat :: k < i ==> !OpensAt(env, calls, k, calls[i].approvalId))
  {
    hide Step, Run, Entry, OpensAt, OpenFor, FreshApprovalIds;
    NextIsFresh(env, calls, i);
    RulingReply(env, Run(env, calls[..i]), calls[i]);
    TimelyIff(env, calls, i);
  }

  /** A granted token is for the payment that was asked about. */
  lemma GrantedIsAskedFor(env: Env, calls: seq<Call>, k: nat, i: nat)
    requires FreshApprovalIds(calls) && k < i < |calls| && calls[i].Approve?
    ensures OpenFor(env, calls, k, i) ==>
      var reply := Step(env, Run(env, calls[..i]), calls[i]).1;
      reply.Granted? && Names(calls[k], reply.token.payload.action)
  {
    hide Step, Run, Entry, OpensAt, FreshApprovalIds, Names;
    NextIsFresh(env, calls, i);
    RulingReply(env, Run(env, calls[..i]), calls[i]);
    PendingIff(env, calls, k, i, calls[i].approvalId);
  }

  // ---------- The lists hold ----------

  /** A request within the maximum and on the lists. */
  ghost predicate OnLists(p: Policy, request: Dict) {
    && (p.maxAmount.Some? ==> Float(Get(request, "amount", PyNum(0.0))) <= p.maxAmount.value)
    && Listed(p.allowedActions, Get(request, "action", PyNone))
    && Listed(p.allowedPurposes, Get(request, "purpose", PyNone))
    && Listed(p.allowedDestinations, Get(request, "destination", PyNone))
  }

  ghost predicate AllOnLists(p: Policy, approvals: seq<Approval>) {
    forall i :: 0 <= i < |approvals| ==> OnLists(p, approvals[i].request)
  }

  lemma PaymentOnLists(p: Policy, i: ActionInput, request: Dict)
    requires InPolicy(p, i) && ForPayment(request, i)
    ensures OnLists(p, request)
  {
  }

  lemma RequestOnLists(p: Policy, given: Dict, request: Dict)
    requires LegacyGuards(p, given) && ForRequest(request, given)
    ensures OnLists(p, request)
  {
    hide Listed;
  }

  lemma AskedIsOnLists(env: Env, b: Books, c: Call, request: Dict)
    requires Asks(env, b, c) && Names(c, request)
    ensures OnLists(env.policy, request)
  {
    hide InPolicy, InLimit, LegacyGuards, ForPayment, ForRequest, OnLists;
    if c.ProcessAction? {
      PaymentOnLists(env.policy, c.input, request);
    } else {
      RequestOnLists(env.policy, c.request, request);
    }
  }

  lemma RulingKeepsLists(p: Policy, b: Books, k: string, s: ApprovalStatus, clock: Clock)
    requires AllOnLists(p, b.approvals)
    ensures AllOnLists(p, AfterRuling(b, k, s, clock))
  {
    hide OnLists;
  }

  /** A call on books whose approvals are on the lists keeps them there, and hands a token out for what is on them. */
  lemma CallKeepsLists(env: Env, b: Books, c: Call)
    requires AllOnLists(env.policy, b.approvals) && (c.RequestExecution? ==> env.policy.maxAmount.Some?)
    ensures AllOnLists(env.policy, Step(env, b, c).0.approvals)
    ensures var token := TokenOf(Step(env, b, c).1); token.Some? ==> OnLists(env.policy, token.value.payload.action)
  {
    hide Step, Asks, Names, OnLists, InPolicy, InLimit, LegacyGuards, ForPayment, ForRequest, AfterRuling;
    if Ruling(c) {
      RulingApprovals(env, b, c);
      RulingKeepsLists(env.policy, b, c.approvalId, if c.Approve? then Approved else Rejected, c.clock);
      GrantIsFromBooks(env, b, c);
    } else {
      var a := AskOpens(env, b, c);
      if Asks(env, b, c) { AskedIsOnLists(env, b, c, a.request); }
      match c
      case ProcessAction(i, risk, ids, clock) =>
        ProcessAnswerIff(env, b, i, risk, ids, clock);
        var reply := Step(env, b, c).1;
        if reply.given.Some? { PaymentOnLists(env.policy, i, reply.given.value.payload.action); }
      case RequestExecution(agentDid, given, facts, risk, details, ids, clock) =>
        LegacyAnswerIff(env, b, agentDid, given, facts, risk, details, ids, clock);
        var reply := Step(env, b, c).1;
        if reply.Token? { RequestOnLists(env.policy, given, reply.token.payload.action); }
      case Consume(token, now) =>
        ConsumeReply(env, b, c);
    }
  }

  lemma GrantIsFromBooks(env: Env, b: Books, c: Call)
    requires Ruling(c)
    ensures var token := TokenOf(Step(env, b, c).1);
      token.Some? ==> exists i :: 0 <= i < |b.approvals| && b.approvals[i].request == token.value.payload.action
  {
    hide Sealed, GrantRecord, RejectionRecord, ExpiryRecords;
  }

  lemma {:induction false} BooksKeepLists(env: Env, calls: seq<Call>)
    requires forall i :: 0 <= i < |calls| && calls[i].RequestExecution? ==> env.policy.maxAmount.Some?
    ensures AllOnLists(env.policy, Run(env, calls).approvals)
  {
    if calls != [] {
      hide Step, OnLists;
      var front := calls[..|calls| - 1];
      assert forall i :: 0 <= i < |front| ==> front[i] == calls[i];
      BooksKeepLists(env, front);
      CallKeepsLists(env, Run(env, front), calls[|calls| - 1]);
    }
  }

  /** In any run of process_action, legacy execution, approval and consumption calls, every token that is handed out, by
      whichever call, is for an amount within the maximum, and for an action, a purpose and a destination on the
      lists. */
  lemma TokensAreOnLists(env: Env, calls: seq<Call>, k: int, token: ActionToken)
    requires 0 <= k < |calls|
    requires forall i :: 0 <= i < |calls| && calls[i].RequestExecution? ==> env.policy.maxAmount.Some?
    ensures Hands(env, calls, k, token) ==> OnLists(env.policy, token.payload.action)
  {
    hide Step, Run, OnLists, TokenOf;
    assert forall i :: 0 <= i < k ==> calls[..k][i] == calls[i];
    BooksKeepLists(env, calls[..k]);
    CallKeepsLists(env, Run(env, calls[..k]), calls[k]);
  }
}
