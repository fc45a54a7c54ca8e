/** What the gateway's books keep over every sequence of calls: hashes and token views that agree,
    approvals that are opened once and closed at most once, and tokens consumed at most once. */
module GatewayRuns {
  import opened Wrappers
  import opened PyValues
  import opened AuditLog
  import opened Gateway

  // ---------- Every call has one of six effects ----------

  datatype Effect =
    | Logged(record: AuditRecord)
    | Created(request: Dict, reason: string, score: int, flags: seq<string>, id: string, clock: Clock)
    | Granting(id: string, submit: Dict, ids: FreshIds, clock: Clock)
    | Rejecting(id: string, clock: Clock)
    | Using(jti: string)
    | Nothing

  ghost function Apply(b: Books, e: Effect): Books {
    match e
    case Logged(r) =>
      b.(records := b.records + [Sealed(r)],
         issued := if r.tokenId.Some? then b.issued + [r.tokenId.value] else b.issued)
    case Created(request, reason, score, flags, id, clock) =>
      AfterCreate(b, request, reason, score, flags, id, clock.check, clock.stamp)
    case Granting(id, submit, ids, clock) => AfterApprove(b, id, submit, ids, clock).0
    case Rejecting(id, clock) => AfterReject(b, id, clock).0
    case Using(jti) => b.(used := b.used + {jti})
    case Nothing => b
  }

  /** The statuses of records that are not part of the approval workflow. */
  ghost predicate Ordinary(s: Status) {
    s == BLOCKED || s == APPROVED || s == CONDITIONAL_APPROVAL
  }

  ghost function FreshOf(c: Call): set<string> {
    match c
    case ProcessAction(_, _, ids, _) => {ids.approvalId}
    case RequestExecution(_, _, _, _, _, ids, _) => {ids.approvalId}
    case _ => {}
  }

  /** The token id a call may issue. */
  ghost function JtiOf(c: Call): set<string> {
    match c
    case ProcessAction(_, _, ids, _) => {ids.jti}
    case RequestExecution(_, _, _, _, _, ids, _) => {ids.jti}
    case Approve(_, _, ids, _) => {ids.jti}
    case _ => {}
  }

  lemma RuntimeNeverAsks(p: RP.Policy, pay: RP.Payment, usedToday: int, c: RP.Circumstances)
    ensures Ordinary(RP.Evaluate(p, pay, usedToday, c).decision)
  {
    RP.ApprovedIff(p, pay, usedToday, c);
  }

  lemma ProcessEffect(env: Env, b: Books, i: ActionInput, risk: RiskAnswer, ids: FreshIds, clock: Clock)
    returns (e: Effect)
    ensures AfterProcess(env, b, i, risk, ids, clock).0 == Apply(b, e)
    ensures e.Logged? || (e.Created? && e.id == ids.approvalId)
    ensures e.Logged? ==> Ordinary(e.record.status)
    ensures e.Logged? && e.record.tokenId.Some? ==> e.record.tokenId.value == ids.jti
  {
    hide ProcessReason, ActionRequest, LedgerRequest, Sealed;
    var request := ActionRequest(env, i, clock.check);
    var reason := ProcessReason(env, b, request, clock);
    var (decision, why) := DecideRisk(risk.score);
    if reason.Some? {
      e := Logged(LedgerRecord(request, BLOCKED, None, reason, false, 0, [], clock.stamp));
    } else if decision == REQUIRE_APPROVAL {
      e := Created(request, why.value, risk.score, risk.flags, ids.approvalId, clock);
    } else {
      var text := if decision == APPROVED then Some("policy_ok") else why;
      e := Logged(LedgerRecord(request, decision, Some(ids.jti), text, true, risk.score, risk.flags, clock.stamp));
    }
  }

  lemma RuntimeEffect(env: Env, b: Books, agentDid: string, request: Dict, facts: RP.Circumstances, details: Dict,
                      ids: FreshIds, clock: Clock) returns (e: Effect)
    ensures AfterRuntime(env, b, agentDid, request, facts, details, ids, clock).0 == Apply(b, e)
    ensures e.Logged? && Ordinary(e.record.status)
    ensures e.Logged? && e.record.tokenId.Some? ==> e.record.tokenId.value == ids.jti
  {
    hide RP.Evaluate, RuntimePayment, Annotate, Sealed, RuntimeUsed;
    var pay, usedToday := RuntimePayment(agentDid, request), RuntimeUsed(b.records, request, clock.check);
    RuntimeNeverAsks(env.runtime, pay, usedToday, facts);
    var v := RP.Evaluate(env.runtime, pay, usedToday, facts);
    var tokenId := if v.decision == BLOCKED then None else Some(ids.jti);
    e := Logged(AuditRecord(v.decision, agentDid, Annotate(request, details), v.reason, tokenId, clock.stamp, None));
  }

  lemma LegacyEffect(env: Env, b: Books, agentDid: string, given: Dict, risk: RiskAnswer, details: Dict,
                     ids: FreshIds, clock: Clock) returns (e: Effect)
    ensures AfterLegacy(env, b, agentDid, given, risk, details, ids, clock).0 == Apply(b, e)
    ensures e.Logged? || (e.Created? && e.id == ids.approvalId)
    ensures e.Logged? ==> Ordinary(e.record.status)
    ensures e.Logged? && e.record.tokenId.Some? ==> e.record.tokenId.value == ids.jti
  {
    hide LegacyRequest, LegacyReason, Annotate, Sealed;
    var request := LegacyRequest(agentDid, given);
    var reason := LegacyReason(env, request);
    if reason.Some? {
      e := Logged(AuditRecord(BLOCKED, agentDid, request, reason, None, clock.stamp, None));
    } else if !risk.demo && risk.score >= 40 {
      e := Created(request, "RISK_SCORE_THRESHOLD", risk.score, risk.flags, ids.approvalId, clock);
    } else {
      e := Logged(AuditRecord(APPROVED, agentDid, Annotate(request, details), Some("policy_ok"), Some(ids.jti),
        clock.stamp, None));
    }
  }

  /** What a call does to the books, and which effects it can have. */
  lemma CallEffect(env: Env, b: Books, c: Call) returns (e: Effect)
    ensures Step(env, b, c).0 == Apply(b, e)
    ensures e.Logged? ==> Ordinary(e.record.status)
    ensures e.Logged? && e.record.tokenId.Some? ==> e.record.tokenId.value in JtiOf(c)
    ensures e.Created? ==> e.id in FreshOf(c)
    ensures c.Approve? <==> e.Granting?
    ensures c.Approve? ==> e == Granting(c.approvalId, c.submit, c.ids, c.clock)
    ensures c.Reject? <==> e.Rejecting?
    ensures c.Reject? ==> e == Rejecting(c.approvalId, c.clock)
    ensures c.Consume? <==> e.Using? || e.Nothing?
    ensures c.Consume? ==>
      e == if Verify(b.used, c.token, true, c.now) == TokenOk then Using(c.token.payload.jti) else Nothing
  {
    hide AfterProcess, AfterRuntime, AfterLegacy, AfterApprove, AfterReject, AfterCreate, Normalize;
    match c
    case ProcessAction(input, risk, ids, clock) => e := ProcessEffect(env, b, input, risk, ids, clock);
    case RequestExecution(agentDid, request, facts, risk, details, ids, clock) =>
      if env.policy.maxAmount.Some? {
        e := LegacyEffect(env, b, agentDid, Normalize(env, request), risk, details, ids, clock);
      } else {
        e := RuntimeEffect(env, b, agentDid, Normalize(env, request), facts, details, ids, clock);
      }
    case Approve(id, submit, ids, clock) => e := Granting(id, submit, ids, clock);
    case Reject(id, clock) => e := Rejecting(id, clock);
    case Consume(token, now) =>
      e := if Verify(b.used, token, true, now) == TokenOk then Using(token.payload.jti) else Nothing;
  }

  // ---------- Hashes ----------

  /** Every stored hash is the hash of what is stored. */
  ghost predicate HashesAgree(records: seq<AuditRecord>) {
    forall i :: 0 <= i < |records| ==> records[i].recordHash == Some(RecordHash(records[i]))
  }

  lemma SealedAgrees(r: AuditRecord)
    ensures Sealed(r).recordHash == Some(RecordHash(Sealed(r)))
  {
  }

  lemma {:induction false} ExpiryHashesAgree(approvals: seq<Approval>, now: int, stamp: int)
    ensures HashesAgree(ExpiryRecords(approvals, now, stamp))
  {
    if approvals != [] {
      ExpiryHashesAgree(approvals[..|approvals| - 1], now, stamp);
      SealedAgrees(ExpiryRecord(approvals[|approvals| - 1], stamp));
    }
  }

  lemma EffectKeepsHashes(b: Books, e: Effect)
    requires HashesAgree(b.records)
    ensures HashesAgree(Apply(b, e).records)
  {
    hide RecordHash, Sealed, ExpiryRecords;
    match e
    case Logged(r) => SealedAgrees(r);
    case Created(request, reason, score, flags, id, clock) =>
      var r := LedgerRecord(request, REQUIRE_APPROVAL, None, Some(reason), false, score, flags, clock.stamp);
      SealedAgrees(r.(request := r.request["approval_id" := PyStr(id)]));
    case Granting(id, submit, ids, clock) =>
      ExpiryHashesAgree(b.approvals, clock.check, clock.stamp);
      var es := AfterExpiry(b, clock.check, clock.stamp);
      var i := Find(es.approvals, id);
      if i.Some? {
        SealedAgrees(GrantRecord(es.approvals[i.value], ids.jti, submit, clock.stamp));
      }
    case Rejecting(id, clock) =>
      ExpiryHashesAgree(b.approvals, clock.check, clock.stamp);
      var es := AfterExpiry(b, clock.check, clock.stamp);
      var i := Find(es.approvals, id);
      if i.Some? {
        SealedAgrees(RejectionRecord(es.approvals[i.value], clock.stamp));
      }
    case _ =>
  }

  // ---------- The two views of issued tokens ----------

  /** The token ids in the audit log, in order. */
  ghost function TokenIds(records: seq<AuditRecord>): seq<string> {
    if records == [] then []
    else
      var last := records[|records| - 1];
      TokenIds(records[..|records| - 1]) + (if last.tokenId.Some? then [last.tokenId.value] else [])
  }

  lemma {:induction false} TokenIdsAppend(a: seq<AuditRecord>, b: seq<AuditRecord>)
    ensures TokenIds(a + b) == TokenIds(a) + TokenIds(b)
  {
    if b == [] {
      assert a + b == a;
    } else {
      assert (a + b)[..|a + b| - 1] == a + b[..|b| - 1];
      TokenIdsAppend(a, b[..|b| - 1]);
    }
  }

  lemma TokenIdsOne(r: AuditRecord)
    ensures TokenIds([r]) == if r.tokenId.Some? then [r.tokenId.value] else []
  {
    assert [r][..0] == [];
  }

  lemma {:induction false} ExpiryIssuesNothing(approvals: seq<Approval>, now: int, stamp: int)
    ensures TokenIds(ExpiryRecords(approvals, now, stamp)) == []
  {
    if approvals != [] {
      var front, last := approvals[..|approvals| - 1], approvals[|approvals| - 1];
      ExpiryIssuesNothing(front, now, stamp);
      if Due(last, now) {
        TokenIdsAppend(ExpiryRecords(front, now, stamp), [Sealed(ExpiryRecord(last, stamp))]);
        TokenIdsOne(Sealed(ExpiryRecord(last, stamp)));
      } else {
        assert ExpiryRecords(approvals, now, stamp) == ExpiryRecords(front, now, stamp);
      }
    }
  }

  lemma EffectKeepsTokenViews(b: Books, e: Effect)
    requires b.issued == TokenIds(b.records)
    ensures Apply(b, e).issued == TokenIds(Apply(b, e).records)
  {
    hide RecordHash, ExpiryRecords, TokenIds, LedgerRequest, Annotate;
    match e
    case Logged(r) =>
      TokenIdsAppend(b.records, [Sealed(r)]);
      TokenIdsOne(Sealed(r));
    case Created(request, reason, score, flags, id, clock) =>
      var r := LedgerRecord(request, REQUIRE_APPROVAL, None, Some(reason), false, score, flags, clock.stamp);
      var tagged := Sealed(r.(request := r.request["approval_id" := PyStr(id)]));
      TokenIdsAppend(b.records, [tagged]);
      TokenIdsOne(tagged);
    case Granting(id, submit, ids, clock) =>
      ExpiryIssuesNothing(b.approvals, clock.check, clock.stamp);
      TokenIdsAppend(b.records, ExpiryRecords(b.approvals, clock.check, clock.stamp));
      var es := AfterExpiry(b, clock.check, clock.stamp);
      var i := Find(es.approvals, id);
      if i.Some? {
        var r := Sealed(GrantRecord(es.approvals[i.value], ids.jti, submit, clock.stamp));
        TokenIdsAppend(es.records, [r]);
        TokenIdsOne(r);
      }
    case Rejecting(id, clock) =>
      ExpiryIssuesNothing(b.approvals, clock.check, clock.stamp);
      TokenIdsAppend(b.records, ExpiryRecords(b.approvals, clock.check, clock.stamp));
      var es := AfterExpiry(b, clock.check, clock.stamp);
      var i := Find(es.approvals, id);
      if i.Some? {
        var r := Sealed(RejectionRecord(es.approvals[i.value], clock.stamp));
        TokenIdsAppend(es.records, [r]);
        TokenIdsOne(r);
      }
    case _ =>
  }

  /** After every run, each stored hash matches its record and the issuer's list is, in order, the token
      ids of the audit log. */
  lemma {:induction false} LogAgreesWithIssuer(env: Env, calls: seq<Call>)
    ensures HashesAgree(Run(env, calls).records)
    ensures Run(env, calls).issued == TokenIds(Run(env, calls).records)
  {
    if calls == [] {
      assert TokenIds([]) == [];
    } else {
      hide Step, Apply, HashesAgree, TokenIds;
      var before := Run(env, calls[..|calls| - 1]);
      LogAgreesWithIssuer(env, calls[..|calls| - 1]);
      var e := CallEffect(env, before, calls[|calls| - 1]);
      EffectKeepsHashes(before, e);
      EffectKeepsTokenViews(before, e);
    }
  }

  /** Tampering shows: put another record with the same stored hash into the log of any run, and the hashes agree
      exactly if it has the same status, agent, reason, token id, time, and request but for secrets. */
  lemma TamperingShows(env: Env, calls: seq<Call>, i: nat, forged: AuditRecord)
    requires i < |Run(env, calls).records| && forged.recordHash == Run(env, calls).records[i].recordHash
    ensures var records := Run(env, calls).records;
      HashesAgree(records[i := forged]) <==> SameContents(forged, records[i])
  {
    hide Run, SameContents, RecordHash;
    var records := Run(env, calls).records;
    LogAgreesWithIssuer(env, calls);
    RecordHashTellsContents(forged, records[i]);
    assert HashesAgree(records[i := forged]) <==> forged.recordHash == Some(RecordHash(forged)) by {
      assert records[i := forged][i] == forged;
    }
  }

  /** The token ids in the audit log, as a set and without the empty one. */
  ghost function AdapterView(records: seq<AuditRecord>): set<string> {
    set id | id in TokenIds(records) && id != ""
  }

  /** After every run, what the adapter rebuilds from the log is exactly what the issuer has issued. */
  lemma AdapterSeesTheIssued(env: Env, calls: seq<Call>)
    ensures AdapterView(Run(env, calls).records) == set id | id in Run(env, calls).issued && id != ""
  {
    hide Run, TokenIds;
    LogAgreesWithIssuer(env, calls);
  }

  /** The adapter that rebuilds the issued ids from the audit log. */
  class TokenIssuerAdapter {
    const gateway: AgentGuardGateway

    constructor (gateway: AgentGuardGateway)
      ensures this.gateway == gateway
    {
      this.gateway := gateway;
    }

    method IssuedJti() returns (issued: set<string>)
      ensures issued == AdapterView(gateway.auditLog.records)
    {
      issued := {};
      var records := gateway.auditLog.records;
      for i := 0 to |records|
        invariant issued == AdapterView(records[..i])
      {
        assert records[..i + 1][..i] == records[..i];
        var tokenId := records[i].tokenId;
        if tokenId.Some? && tokenId.value != "" {
          issued := issued + {tokenId.value};
        }
      }
      assert records[..|records|] == records;
    }
  }

  // ---------- Approvals: opened once, closed at most once ----------

  ghost predicate DistinctIds(approvals: seq<Approval>) {
    forall i, j :: 0 <= i < j < |approvals| ==> approvals[i].approvalId != approvals[j].approvalId
  }

  ghost predicate Tagged(r: AuditRecord, s: Status, id: string) {
    r.status == s && Get(r.request, "approval_id", PyNone) == PyStr(id)
  }

  /** How many records of one status carry an approval id. */
  ghost function CountTagged(records: seq<AuditRecord>, s: Status, id: string): nat {
    if records == [] then 0
    else CountTagged(records[..|records| - 1], s, id) + (if Tagged(records[|records| - 1], s, id) then 1 else 0)
  }

  lemma {:induction false} CountAppend(a: seq<AuditRecord>, b: seq<AuditRecord>, s: Status, id: string)
    ensures CountTagged(a + b, s, id) == CountTagged(a, s, id) + CountTagged(b, s, id)
  {
    if b == [] {
      assert a + b == a;
    } else {
      assert (a + b)[..|a + b| - 1] == a + b[..|b| - 1];
      CountAppend(a, b[..|b| - 1], s, id);
    }
  }

  lemma CountOne(r: AuditRecord, s: Status, id: string)
    ensures CountTagged([r], s, id) == if Tagged(r, s, id) then 1 else 0
  {
    assert [r][..0] == [];
  }

  /** The record that closes an approval. */
  ghost function ClosingStatus(s: ApprovalStatus): Option<Status> {
    match s
    case Pending => None
    case Approved => Some(APPROVED_AFTER_HUMAN_APPROVAL)
    case Rejected => Some(REJECTED_BY_HUMAN)
    case Expired => Some(EXPIRED)
  }

  ghost function StatusOf(approvals: seq<Approval>, id: string): Option<ApprovalStatus> {
    var i := Find(approvals, id);
    if i.Some? then Some(approvals[i.value].status) else None
  }

  /** How many records of a workflow status an approval id should have. */
  ghost function Due1(status: Option<ApprovalStatus>, s: Status): nat {
    if status.None? then 0
    else if s == REQUIRE_APPROVAL then 1
    else if Some(s) == ClosingStatus(status.value) then 1
    else 0
  }

  /** Each approval has one opening record, and a closing record of the kind of its status exactly if it is
      no longer pending; there are no other workflow records. */
  ghost predicate Conserved(b: Books) {
    && DistinctIds(b.approvals)
    && forall id, s :: !Ordinary(s) ==> CountTagged(b.records, s, id) == Due1(StatusOf(b.approvals, id), s)
  }

  lemma FindNone(approvals: seq<Approval>, id: string)
    requires forall i :: 0 <= i < |approvals| ==> approvals[i].approvalId != id
    ensures Find(approvals, id).None?
  {
  }

  lemma FindUnique(approvals: seq<Approval>, i: nat)
    requires DistinctIds(approvals) && i < |approvals|
    ensures Find(approvals, approvals[i].approvalId) == Some(i)
  {
    hide Find;
    var id := approvals[i].approvalId;
    var r := Find(approvals, id);
    assert r.Some? && approvals[r.value].approvalId == id;
  }

  lemma FindAppended(approvals: seq<Approval>, a: Approval, id: string)
    requires DistinctIds(approvals) && Find(approvals, a.approvalId).None?
    ensures DistinctIds(approvals + [a])
    ensures StatusOf(approvals + [a], id) == if id == a.approvalId then Some(a.status) else StatusOf(approvals, id)
  {
    var all := approvals + [a];
    var i := Find(approvals, id);
    if id == a.approvalId {
      FindUnique(all, |approvals|);
      assert all[|approvals|] == a;
    } else if i.Some? {
      FindUnique(all, i.value);
      assert all[i.value] == approvals[i.value];
    } else {
      FindNone(all, id);
    }
  }

  /** Approvals of which only statuses have changed keep their places. */
  lemma FindRestatused(approvals: seq<Approval>, changed: seq<Approval>, id: string)
    requires DistinctIds(approvals) && |changed| == |approvals|
    requires forall i :: 0 <= i < |approvals| ==> changed[i].approvalId == approvals[i].approvalId
    ensures DistinctIds(changed) && Find(changed, id) == Find(approvals, id)
  {
    var i := Find(approvals, id);
    if i.Some? {
      FindUnique(changed, i.value);
    } else {
      FindNone(changed, id);
    }
  }

  lemma {:induction false} ExpiryCount(approvals: seq<Approval>, now: int, stamp: int, s: Status, id: string)
    requires DistinctIds(approvals)
    ensures var i := Find(approvals, id);
      CountTagged(ExpiryRecords(approvals, now, stamp), s, id)
      == if s == EXPIRED && i.Some? && Due(approvals[i.value], now) then 1 else 0
  {
    if approvals != [] {
      var front, last := approvals[..|approvals| - 1], approvals[|approvals| - 1];
      assert approvals == front + [last];
      ExpiryCount(front, now, stamp, s, id);
      forall i | 0 <= i < |front| ensures front[i].approvalId != last.approvalId {
        assert front[i] == approvals[i];
      }
      FindNone(front, last.approvalId);
      ExpiryFound(front, last, id);
      if Due(last, now) {
        var r := Sealed(ExpiryRecord(last, stamp));
        CountAppend(ExpiryRecords(front, now, stamp), [r], s, id);
        CountOne(r, s, id);
        ExpiryTag(last, stamp, s, id);
      } else {
        assert ExpiryRecords(approvals, now, stamp) == ExpiryRecords(front, now, stamp);
      }
    }
  }

  lemma ExpiryTag(a: Approval, stamp: int, s: Status, id: string)
    ensures Tagged(Sealed(ExpiryRecord(a, stamp)), s, id) <==> s == EXPIRED && id == a.approvalId
  {
    assert "approval_id" != "request_hash";
  }

  lemma ExpiryFound(front: seq<Approval>, last: Approval, id: string)
    requires DistinctIds(front + [last]) && Find(front, last.approvalId).None?
    ensures Find(front + [last], id) == if id == last.approvalId then Some(|front|) else Find(front, id)
  {
    var all := front + [last];
    var i := Find(front, id);
    if id == last.approvalId {
      FindUnique(all, |front|);
    } else if i.Some? {
      FindUnique(all, i.value);
    } else {
      FindNone(all, id);
    }
  }

  lemma ExpiryKeepsConservation(b: Books, now: int, stamp: int)
    requires Conserved(b)
    ensures Conserved(AfterExpiry(b, now, stamp))
    ensures forall id ::
      StatusOf(AfterExpiry(b, now, stamp).approvals, id)
      == var i := Find(b.approvals, id); if i.Some? then Some(ExpireOne(b.approvals[i.value], now).status) else None
  {
    var e := AfterExpiry(b, now, stamp);
    forall id ensures Find(e.approvals, id) == Find(b.approvals, id) && DistinctIds(e.approvals) {
      FindRestatused(b.approvals, e.approvals, id);
    }
    assert DistinctIds(e.approvals) by {
      FindRestatused(b.approvals, e.approvals, "");
    }
    forall id, s | !Ordinary(s) ensures CountTagged(e.records, s, id) == Due1(StatusOf(e.approvals, id), s) {
      CountAppend(b.records, ExpiryRecords(b.approvals, now, stamp), s, id);
      ExpiryCount(b.approvals, now, stamp, s, id);
    }
  }

  /** Closing a pending approval together with its record. */
  lemma ClosingKeepsConservation(b: Books, i: nat, s: ApprovalStatus, r: AuditRecord, issued: seq<string>)
    requires Conserved(b) && i < |b.approvals| && b.approvals[i].status == Pending && s != Pending
    requires Some(r.status) == ClosingStatus(s)
    requires Get(r.request, "approval_id", PyNone) == PyStr(b.approvals[i].approvalId)
    ensures Conserved(b.(approvals := b.approvals[i := b.approvals[i].(status := s)], records := b.records + [r],
      issued := issued))
    ensures forall id ::
      StatusOf(b.approvals[i := b.approvals[i].(status := s)], id)
      == if id == b.approvals[i].approvalId then Some(s) else StatusOf(b.approvals, id)
  {
    var changed := b.approvals[i := b.approvals[i].(status := s)];
    FindRestatused(b.approvals, changed, "");
    forall id
      ensures StatusOf(changed, id) == if id == b.approvals[i].approvalId then Some(s) else StatusOf(b.approvals, id)
    {
      FindRestatused(b.approvals, changed, id);
      FindUnique(b.approvals, i);
    }
    forall id, t | !Ordinary(t) ensures CountTagged(b.records + [r], t, id) == Due1(StatusOf(changed, id), t) {
      CountAppend(b.records, [r], t, id);
      CountOne(r, t, id);
      FindUnique(b.approvals, i);
    }
  }

  lemma GrantTag(a: Approval, jti: string, submit: Dict, stamp: int)
    ensures Get(GrantRecord(a, jti, submit, stamp).request, "approval_id", PyNone) == PyStr(a.approvalId)
    ensures Get(RejectionRecord(a, stamp).request, "approval_id", PyNone) == PyStr(a.approvalId)
  {
    assert "approval_id" !in DETAIL_KEYS;
    assert "approval_id" != "request_hash";
  }

  lemma LoggingKeepsConservation(b: Books, r: AuditRecord, issued: seq<string>)
    requires Conserved(b) && Ordinary(r.status)
    ensures Conserved(b.(records := b.records + [Sealed(r)], issued := issued))
  {
    forall id, s | !Ordinary(s) ensures CountTagged(b.records + [Sealed(r)], s, id) == CountTagged(b.records, s, id) {
      CountAppend(b.records, [Sealed(r)], s, id);
      CountOne(Sealed(r), s, id);
    }
  }

  lemma CreatingKeepsConservation(b: Books, request: Dict, reason: string, score: int, flags: seq<string>, id: string,
                                  clock: Clock)
    requires Conserved(b) && Find(b.approvals, id).None?
    ensures Conserved(AfterCreate(b, request, reason, score, flags, id, clock.check, clock.stamp))
  {
    hide RecordHash, LedgerRequest;
    var a := Opened(request, reason, score, flags, id, clock.check);
    var r0 := LedgerRecord(request, REQUIRE_APPROVAL, None, Some(reason), false, score, flags, clock.stamp);
    var r := Sealed(r0.(request := r0.request["approval_id" := PyStr(id)]));
    FindAppended(b.approvals, a, id);
    forall k, s | !Ordinary(s) ensures CountTagged(b.records + [r], s, k) == Due1(StatusOf(b.approvals + [a], k), s) {
      FindAppended(b.approvals, a, k);
      CountAppend(b.records, [r], s, k);
      CountOne(r, s, k);
    }
  }

  lemma EffectKeepsConservation(b: Books, e: Effect)
    requires Conserved(b)
    requires e.Logged? ==> Ordinary(e.record.status)
    requires e.Created? ==> Find(b.approvals, e.id).None?
    ensures Conserved(Apply(b, e))
  {
    hide RecordHash, Conserved, AfterCreate, Sealed;
    match e
    case Logged(r) =>
      LoggingKeepsConservation(b, r, Apply(b, e).issued);
    case Created(request, reason, score, flags, id, clock) =>
      CreatingKeepsConservation(b, request, reason, score, flags, id, clock);
    case Granting(id, submit, ids, clock) =>
      ExpiryKeepsConservation(b, clock.check, clock.stamp);
      GrantKeepsConservation(AfterExpiry(b, clock.check, clock.stamp), id, submit, ids, clock);
    case Rejecting(id, clock) =>
      ExpiryKeepsConservation(b, clock.check, clock.stamp);
      RejectKeepsConservation(AfterExpiry(b, clock.check, clock.stamp), id, clock);
    case Using(jti) => OnlyApprovalsAndRecordsMatter(b, b.(used := b.used + {jti}));
    case Nothing =>
  }

  lemma OnlyApprovalsAndRecordsMatter(b: Books, c: Books)
    requires Conserved(b) && c.approvals == b.approvals && c.records == b.records
    ensures Conserved(c)
  {
  }

  lemma GrantKeepsConservation(e: Books, id: string, submit: Dict, ids: FreshIds, clock: Clock)
    requires Conserved(e)
    ensures var i := Find(e.approvals, id);
      i.Some? && e.approvals[i.value].status == Pending ==>
      Conserved(LogWithToken(e.(approvals := e.approvals[i.value := e.approvals[i.value].(status := Approved)]),
                             GrantRecord(e.approvals[i.value], ids.jti, submit, clock.stamp), ids.jti))
  {
    hide RecordHash, Conserved, GrantRecord;
    var i := Find(e.approvals, id);
    if i.Some? && e.approvals[i.value].status == Pending {
      var a := e.approvals[i.value];
      GrantTag(a, ids.jti, submit, clock.stamp);
      GrantStatus(a, ids.jti, submit, clock.stamp);
      ClosingKeepsConservation(e, i.value, Approved, Sealed(GrantRecord(a, ids.jti, submit, clock.stamp)),
        e.issued + [ids.jti]);
    }
  }

  lemma GrantStatus(a: Approval, jti: string, submit: Dict, stamp: int)
    ensures GrantRecord(a, jti, submit, stamp).status == APPROVED_AFTER_HUMAN_APPROVAL
  {
  }

  lemma RejectKeepsConservation(e: Books, id: string, clock: Clock)
    requires Conserved(e)
    ensures var i := Find(e.approvals, id);
      i.Some? && e.approvals[i.value].status == Pending ==>
      Conserved(Log(e.(approvals := e.approvals[i.value := e.approvals[i.value].(status := Rejected)]),
                    RejectionRecord(e.approvals[i.value], clock.stamp)))
  {
    hide RecordHash, Conserved;
    var i := Find(e.approvals, id);
    if i.Some? && e.approvals[i.value].status == Pending {
      var a := e.approvals[i.value];
      GrantTag(a, "", map[], clock.stamp);
      ClosingKeepsConservation(e, i.value, Rejected, Sealed(RejectionRecord(a, clock.stamp)), e.issued);
    }
  }

  // ---------- Approvals over whole runs ----------

  /** uuid4 never returns an approval id twice. */
  ghost predicate FreshApprovalIds(calls: seq<Call>) {
    forall i, j :: 0 <= i < j < |calls| ==> FreshOf(calls[i]) !! FreshOf(calls[j])
  }

  ghost predicate Drawn(id: string, calls: seq<Call>) {
    exists k :: 0 <= k < |calls| && id in FreshOf(calls[k])
  }

  ghost predicate IdsFrom(approvals: seq<Approval>, calls: seq<Call>) {
    forall i :: 0 <= i < |approvals| ==> Drawn(approvals[i].approvalId, calls)
  }

  lemma ExpiryKeepsIds(approvals: seq<Approval>, now: int)
    ensures |ExpireAll(approvals, now)| == |approvals|
    ensures forall i :: 0 <= i < |approvals| ==> ExpireAll(approvals, now)[i].approvalId == approvals[i].approvalId
  {
  }

  /** The ids an effect can leave behind. */
  lemma EffectIds(b: Books, e: Effect, i: int)
    requires 0 <= i < |Apply(b, e).approvals|
    ensures
      || (i < |b.approvals| && Apply(b, e).approvals[i].approvalId == b.approvals[i].approvalId)
      || (i == |b.approvals| && e.Created? && Apply(b, e).approvals[i].approvalId == e.id)
  {
    hide Sealed, LedgerRecord, GrantRecord, RejectionRecord, ExpiryRecords, ExpireAll;
    match e
    case Granting(_, _, _, clock) => ExpiryKeepsIds(b.approvals, clock.check);
    case Rejecting(_, clock) => ExpiryKeepsIds(b.approvals, clock.check);
    case _ =>
  }

  lemma IdsStayFrom(b: Books, e: Effect, calls: seq<Call>)
    requires calls != []
    requires IdsFrom(b.approvals, calls[..|calls| - 1])
    requires e.Created? ==> e.id in FreshOf(calls[|calls| - 1])
    ensures IdsFrom(Apply(b, e).approvals, calls)
  {
    hide Apply, FreshOf;
    var after := Apply(b, e).approvals;
    var front := calls[..|calls| - 1];
    forall i | 0 <= i < |after| ensures Drawn(after[i].approvalId, calls) {
      EffectIds(b, e, i);
      if i < |b.approvals| && after[i].approvalId == b.approvals[i].approvalId {
        assert Drawn(b.approvals[i].approvalId, front);
        var k :| 0 <= k < |front| && b.approvals[i].approvalId in FreshOf(front[k]);
        assert after[i].approvalId in FreshOf(calls[k]);
      } else {
        assert after[i].approvalId in FreshOf(calls[|calls| - 1]);
      }
    }
  }

  lemma FreshIsUnknown(approvals: seq<Approval>, calls: seq<Call>, id: string)
    requires calls != [] && FreshApprovalIds(calls) && IdsFrom(approvals, calls[..|calls| - 1])
    requires id in FreshOf(calls[|calls| - 1])
    ensures Find(approvals, id).None?
  {
    hide FreshOf;
    var front := calls[..|calls| - 1];
    forall i | 0 <= i < |approvals| ensures approvals[i].approvalId != id {
      assert Drawn(approvals[i].approvalId, front);
      var k :| 0 <= k < |front| && approvals[i].approvalId in FreshOf(front[k]);
      assert FreshOf(calls[k]) !! FreshOf(calls[|calls| - 1]);
    }
    FindNone(approvals, id);
  }

  /** After every run, every approval has been opened exactly once, and closed exactly once, in the way its
      status says, or not at all. */
  lemma {:induction false} ApprovalsAreConserved(env: Env, calls: seq<Call>)
    requires FreshApprovalIds(calls)
    ensures Conserved(Run(env, calls))
    ensures IdsFrom(Run(env, calls).approvals, calls)
  {
    if calls != [] {
      hide Step, Apply, Conserved, IdsFrom;
      var front, last := calls[..|calls| - 1], calls[|calls| - 1];
      var before := Run(env, front);
      ApprovalsAreConserved(env, front);
      var e := CallEffect(env, before, last);
      if e.Created? {
        FreshIsUnknown(before.approvals, calls, e.id);
      }
      EffectKeepsConservation(before, e);
      IdsStayFrom(before, e, calls);
    }
  }

  /** Approvals after expiry and a ruling on one of them. */
  ghost function AfterRuling(b: Books, k: string, s: ApprovalStatus, clock: Clock): seq<Approval> {
    var approvals := ExpireAll(b.approvals, clock.check);
    var i := Find(approvals, k);
    if i.Some? && approvals[i.value].status == Pending then approvals[i.value := approvals[i.value].(status := s)]
    else approvals
  }

  lemma EffectApprovals(b: Books, e: Effect)
    ensures Apply(b, e).approvals ==
      match e
      case Created(request, reason, score, flags, k, clock) =>
        b.approvals + [Opened(request, reason, score, flags, k, clock.check)]
      case Granting(k, _, _, clock) => AfterRuling(b, k, Approved, clock)
      case Rejecting(k, clock) => AfterRuling(b, k, Rejected, clock)
      case _ => b.approvals
  {
    hide LedgerRecord, Sealed, GrantRecord, RejectionRecord, ExpiryRecords, ExpireAll;
  }

  /** What one call does to the status of an approval: a status other than pending never changes, and a
      pending approval becomes approved only by a timely approve call on it. */
  lemma StatusStep(env: Env, b: Books, c: Call, id: string)
    requires Conserved(b)
    requires forall k :: k in FreshOf(c) ==> Find(b.approvals, k).None?
    requires StatusOf(b.approvals, id).Some?
    ensures var before, after := StatusOf(b.approvals, id).value, StatusOf(Step(env, b, c).0.approvals, id);
      && after.Some?
      && (before != Pending ==> after.value == before)
      && (before == Pending && after.value == Approved ==>
            c.Approve? && c.approvalId == id && c.clock.check < b.approvals[Find(b.approvals, id).value].expiresAt)
  {
    hide Step, Apply, FreshOf, AfterRuling, CountTagged;
    var e := CallEffect(env, b, c);
    EffectApprovals(b, e);
    match e
    case Created(request, reason, score, flags, k, clock) =>
      FindAppended(b.approvals, Opened(request, reason, score, flags, k, clock.check), id);
    case Granting(k, submit, ids, clock) =>
      RulingStep(b, k, Approved, clock, id);
    case Rejecting(k, clock) =>
      RulingStep(b, k, Rejected, clock, id);
    case _ =>
  }

  lemma RulingStep(b: Books, k: string, s: ApprovalStatus, clock: Clock, id: string)
    requires Conserved(b) && StatusOf(b.approvals, id).Some? && s != Pending
    ensures var before, after := StatusOf(b.approvals, id).value, StatusOf(AfterRuling(b, k, s, clock), id);
      && after.Some?
      && (before != Pending ==> after.value == before)
      && (before == Pending && after.value == Approved ==>
            s == Approved && k == id && clock.check < b.approvals[Find(b.approvals, id).value].expiresAt)
  {
    var expired := ExpireAll(b.approvals, clock.check);
    FindRestatused(b.approvals, expired, id);
    FindRestatused(b.approvals, expired, k);
    var i := Find(expired, k);
    if i.Some? && expired[i.value].status == Pending {
      FindRestatused(expired, AfterRuling(b, k, s, clock), id);
      FindUnique(expired, i.value);
    }
  }

  /** An approval whose time is up is not granted, whatever is in the books. */
  lemma OverdueIsNotGranted(env: Env, b: Books, id: string, submit: Dict, ids: FreshIds, clock: Clock)
    requires DistinctIds(b.approvals) && Find(b.approvals, id).Some?
    requires b.approvals[Find(b.approvals, id).value].expiresAt <= clock.check
    ensures !Step(env, b, Approve(id, submit, ids, clock)).1.Granted?
  {
    FindRestatused(b.approvals, ExpireAll(b.approvals, clock.check), id);
  }

  /** A status other than pending is final: it is the same after any continuation of the run. */
  lemma {:induction false} ClosedStaysClosed(env: Env, calls: seq<Call>, later: seq<Call>, id: string)
    requires FreshApprovalIds(calls + later)
    ensures var closed := StatusOf(Run(env, calls).approvals, id);
      closed.Some? && closed != Some(Pending) ==> StatusOf(Run(env, calls + later).approvals, id) == closed
    decreases |later|
  {
    if later == [] {
      assert calls + later == calls;
    } else {
      hide Step, StatusOf;
      var all := calls + later;
      var front := calls + later[..|later| - 1];
      assert all[..|all| - 1] == front && all[|all| - 1] == later[|later| - 1];
      PrefixIsFresh(all, |all| - 1);
      ClosedStaysClosed(env, calls, later[..|later| - 1], id);
      StatusStepInRun(env, all, id);
    }
  }

  lemma PrefixIsFresh(calls: seq<Call>, n: int)
    requires FreshApprovalIds(calls) && 0 <= n <= |calls|
    ensures FreshApprovalIds(calls[..n])
  {
    forall i, j | 0 <= i < j < n ensures FreshOf(calls[..n][i]) !! FreshOf(calls[..n][j]) {
      assert FreshOf(calls[i]) !! FreshOf(calls[j]);
    }
  }

  lemma StatusStepInRun(env: Env, calls: seq<Call>, id: string)
    requires FreshApprovalIds(calls) && calls != []
    ensures var b, c := Run(env, calls[..|calls| - 1]), calls[|calls| - 1];
      StatusOf(b.approvals, id).Some? ==>
      var before, after := StatusOf(b.approvals, id).value, StatusOf(Run(env, calls).approvals, id);
      && after.Some?
      && (before != Pending ==> after.value == before)
      && (before == Pending && after.value == Approved ==>
            c.Approve? && c.approvalId == id && c.clock.check < b.approvals[Find(b.approvals, id).value].expiresAt)
  {
    hide Step, FreshOf, Conserved, IdsFrom;
    var front, last := calls[..|calls| - 1], calls[|calls| - 1];
    PrefixIsFresh(calls, |calls| - 1);
    ApprovalsAreConserved(env, front);
    forall k | k in FreshOf(last) ensures Find(Run(env, front).approvals, k).None? {
      FreshIsUnknown(Run(env, front).approvals, calls, k);
    }
    if StatusOf(Run(env, front).approvals, id).Some? {
      StatusStep(env, Run(env, front), last, id);
    }
  }

  // ---------- Tokens are consumed at most once ----------

  ghost predicate Accepts(env: Env, calls: seq<Call>, i: int)
    requires 0 <= i < |calls|
  {
    calls[i].Consume? && Step(env, Run(env, calls[..i]), calls[i]).1 == Verified(TokenOk)
  }

  lemma ConsumeReply(env: Env, b: Books, c: Call)
    requires c.Consume?
    ensures Step(env, b, c).1 == Verified(Verify(b.used, c.token, true, c.now))
  {
  }

  lemma EffectUses(b: Books, e: Effect)
    ensures Apply(b, e).used == b.used + (if e.Using? then {e.jti} else {})
  {
    hide Sealed, LedgerRecord, GrantRecord, RejectionRecord, ExpiryRecords, ExpireAll;
  }

  lemma UsedStep(env: Env, b: Books, c: Call)
    ensures Step(env, b, c).0.used
         == b.used + (if c.Consume? && Step(env, b, c).1 == Verified(TokenOk) then {c.token.payload.jti} else {})
  {
    hide Step, Apply, Verify;
    var e := CallEffect(env, b, c);
    EffectUses(b, e);
    if c.Consume? {
      ConsumeReply(env, b, c);
    }
  }

  lemma {:induction false} AcceptedIsUsed(env: Env, calls: seq<Call>, i: int, n: int)
    requires 0 <= i < n <= |calls| && calls[i].Consume? && Accepts(env, calls, i)
    ensures calls[i].token.payload.jti in Run(env, calls[..n]).used
    decreases n
  {
    hide Step;
    var before := Run(env, calls[..n - 1]);
    assert calls[..n][..n - 1] == calls[..n - 1];
    UsedStep(env, before, calls[n - 1]);
    if i < n - 1 {
      AcceptedIsUsed(env, calls, i, n - 1);
    }
  }

  /** No token id is accepted twice in any run; an accepted token is genuine and in time. */
  lemma TokenAcceptedAtMostOnce(env: Env, calls: seq<Call>, i: int, j: int)
    requires 0 <= i < j < |calls|
    ensures Accepts(env, calls, i) && Accepts(env, calls, j) ==>
      calls[i].token.payload.jti != calls[j].token.payload.jti
    ensures Accepts(env, calls, i) ==> Genuine(calls[i].token) && calls[i].now <= calls[i].token.payload.expiresAt
  {
    hide Step, Run;
    if Accepts(env, calls, i) {
      AcceptedIsUsed(env, calls, i, j);
      ConsumeReply(env, Run(env, calls[..i]), calls[i]);
      if Accepts(env, calls, j) {
        ConsumeReply(env, Run(env, calls[..j]), calls[j]);
      }
    }
  }

  /** An earlier call of the run was a consumption of this token id, and was accepted. */
  ghost predicate AcceptedBefore(env: Env, calls: seq<Call>, i: int, jti: string)
    requires 0 <= i <= |calls|
  {
    exists j :: 0 <= j < i && Accepts(env, calls, j) && calls[j].token.payload.jti == jti
  }

  lemma {:induction false} UsedWasAccepted(env: Env, calls: seq<Call>, n: nat, jti: string)
    requires n <= |calls|
    ensures jti in Run(env, calls[..n]).used ==> AcceptedBefore(env, calls, n, jti)
  {
    if n > 0 && jti in Run(env, calls[..n]).used {
      hide Step;
      assert calls[..n][..n - 1] == calls[..n - 1];
      UsedStep(env, Run(env, calls[..n - 1]), calls[n - 1]);
      UsedWasAccepted(env, calls, n - 1, jti);
      assert jti !in Run(env, calls[..n - 1]).used ==> Accepts(env, calls, n - 1);
    }
  }

  /** The used ids are those of accepted consumptions. */
  lemma UsedIffAccepted(env: Env, calls: seq<Call>, n: nat, jti: string)
    requires n <= |calls|
    ensures jti in Run(env, calls[..n]).used <==> AcceptedBefore(env, calls, n, jti)
  {
    hide Run, Step;
    UsedWasAccepted(env, calls, n, jti);
    if AcceptedBefore(env, calls, n, jti) {
      var j :| 0 <= j < n && Accepts(env, calls, j) && calls[j].token.payload.jti == jti;
      AcceptsConsume(env, calls, j);
      AcceptedIsUsed(env, calls, j, n);
    }
  }

  lemma AcceptsConsume(env: Env, calls: seq<Call>, i: int)
    requires 0 <= i < |calls|
    ensures Accepts(env, calls, i) ==> calls[i].Consume?
  {
  }

  /** In any run a consumption is accepted if and only if the token carries the gateway's signature on what it says, is
      not presented after its time, has an id, and no earlier call has consumed this id. */
  lemma AcceptsIff(env: Env, calls: seq<Call>, i: int)
    requires 0 <= i < |calls| && calls[i].Consume?
    ensures var token := calls[i].token;
      Accepts(env, calls, i)
      <==> && token.signature == SignedByGateway(token.payload)
           && calls[i].now <= token.payload.expiresAt
           && token.payload.jti != ""
           && !AcceptedBefore(env, calls, i, token.payload.jti)
  {
    hide Run, Step, AcceptedBefore;
    ConsumeReply(env, Run(env, calls[..i]), calls[i]);
    UsedIffAccepted(env, calls, i, calls[i].token.payload.jti);
  }

  /** What a refused consumption is told, the first that applies: not signed, too late, no id, consumed before. */
  lemma RefusalSaysWhy(env: Env, calls: seq<Call>, i: int)
    requires 0 <= i < |calls| && calls[i].Consume?
    ensures var (token, reply) := (calls[i].token, Step(env, Run(env, calls[..i]), calls[i]).1);
      var signed, late := token.signature == SignedByGateway(token.payload), calls[i].now > token.payload.expiresAt;
      && (reply == Verified(InvalidSignature) <==> !signed)
      && (reply == Verified(TokenExpired) <==> signed && late)
      && (reply == Verified(MissingJti) <==> signed && !late && token.payload.jti == "")
      && (reply == Verified(ReplayDetected)
          <==> signed && !late && token.payload.jti != "" && AcceptedBefore(env, calls, i, token.payload.jti))
  {
    hide Run, Step, AcceptedBefore;
    ConsumeReply(env, Run(env, calls[..i]), calls[i]);
    UsedIffAccepted(env, calls, i, calls[i].token.payload.jti);
  }

  /** Verifying without consuming looks at the token alone. */
  lemma VerifiesIff(used: set<string>, token: ActionToken, now: int)
    ensures Verify(used, token, false, now) == TokenOk
      <==> && token.signature == SignedByGateway(token.payload)
           && now <= token.payload.expiresAt
           && token.payload.jti != ""
  {
  }

  // ---------- What is accepted was issued ----------

  /** uuid4 never returns a token id twice. */
  ghost predicate FreshJtis(calls: seq<Call>) {
    forall i, j :: 0 <= i < j < |calls| ==> JtiOf(calls[i]) !! JtiOf(calls[j])
  }

  /** The token a reply hands out. */
  ghost function TokenOf(reply: Reply): Option<ActionToken> {
    match reply
    case Granted(token) => Some(token)
    case Token(token) => Some(token)
    case Decided(_, _, given) => given
    case _ => None
  }

  /** Call `k` of a run is answered with this token. */
  ghost predicate Hands(env: Env, calls: seq<Call>, k: int, token: ActionToken)
    requires 0 <= k < |calls|
  {
    TokenOf(Step(env, Run(env, calls[..k]), calls[k]).1) == Some(token)
  }

  /** Signatures cannot be forged: whoever presents a genuine token has it from an earlier answer of the gateway. */
  ghost predicate Unforgeable(env: Env, calls: seq<Call>) {
    forall i :: 0 <= i < |calls| && calls[i].Consume? && Genuine(calls[i].token) ==>
      exists k :: 0 <= k < i && Hands(env, calls, k, calls[i].token)
  }

  ghost predicate IssuedBy(id: string, calls: seq<Call>) {
    exists k :: 0 <= k < |calls| && id in JtiOf(calls[k])
  }

  ghost predicate Distinct(ids: seq<string>) {
    forall i, j :: 0 <= i < j < |ids| ==> ids[i] != ids[j]
  }

  lemma EffectIssues(b: Books, e: Effect) returns (more: seq<string>)
    ensures Apply(b, e).issued == b.issued + more && |more| <= 1
    ensures e.Logged? && e.record.tokenId.Some? ==> more == [e.record.tokenId.value]
    ensures e.Logged? && e.record.tokenId.None? ==> more == []
    ensures e.Granting? ==> more == [] || more == [e.ids.jti]
    ensures !e.Logged? && !e.Granting? ==> more == []
  {
    hide Sealed, LedgerRecord, GrantRecord, RejectionRecord, ExpiryRecords, ExpireAll;
    more := Apply(b, e).issued[|b.issued|..];
  }

  /** A call issues at most one token, with the id it has drawn. */
  lemma CallIssues(env: Env, b: Books, c: Call) returns (more: seq<string>)
    ensures Step(env, b, c).0.issued == b.issued + more && |more| <= 1
    ensures forall id :: id in more ==> id in JtiOf(c)
  {
    hide Step, Apply;
    var e := CallEffect(env, b, c);
    more := EffectIssues(b, e);
  }

  lemma {:induction false} IssuedIdsAreDistinct(env: Env, calls: seq<Call>)
    requires FreshJtis(calls)
    ensures Distinct(Run(env, calls).issued)
    ensures forall id :: id in Run(env, calls).issued ==> IssuedBy(id, calls)
  {
    if calls != [] {
      hide Step, JtiOf;
      var front, last := calls[..|calls| - 1], calls[|calls| - 1];
      forall i, j | 0 <= i < j < |front| ensures JtiOf(front[i]) !! JtiOf(front[j]) {
        assert JtiOf(calls[i]) !! JtiOf(calls[j]);
      }
      IssuedIdsAreDistinct(env, front);
      var more := CallIssues(env, Run(env, front), last);
      forall id | id in Run(env, front).issued ensures IssuedBy(id, calls) && id !in JtiOf(last) {
        var k :| 0 <= k < |front| && id in JtiOf(front[k]);
        assert id in JtiOf(calls[k]) && JtiOf(calls[k]) !! JtiOf(calls[|calls| - 1]);
      }
      forall id | id in more ensures IssuedBy(id, calls) {
        assert id in JtiOf(calls[|calls| - 1]);
      }
      DistinctSnoc(Run(env, front).issued, more);
    }
  }

  lemma DistinctSnoc(ids: seq<string>, more: seq<string>)
    requires Distinct(ids) && |more| <= 1 && forall id :: id in more ==> id !in ids
    ensures Distinct(ids + more)
  {
    assert |more| == 1 ==> more[0] in more;
  }

  /** When a call reads the clock for its token; calls that issue none read none. */
  ghost function IssueTime(c: Call): int {
    if c.ProcessAction? || c.RequestExecution? || c.Approve? then c.clock.issue else 0
  }

  /** A token that is handed out is signed, lives for its time, and its id is written down as issued in the same
    call. */
  lemma HandedIsIssued(env: Env, b: Books, c: Call)
    ensures var (after, reply) := Step(env, b, c);
      TokenOf(reply).Some? ==>
      var token := TokenOf(reply).value;
      && Genuine(token)
      && token.payload.jti in JtiOf(c)
      && token.payload.expiresAt == IssueTime(c) + TOKEN_TTL
      && after.issued == b.issued + [token.payload.jti]
  {
    hide ActionRequest, ProcessReason, LedgerRequest, Sealed, Annotate, RP.Evaluate, RuntimePayment, RuntimeUsed;
    hide Normalize, LegacyRequest, LegacyReason, ExpireAll, ExpiryRecords, GrantRecord, AfterCreate;
  }

  lemma {:induction false} IssuedStays(env: Env, calls: seq<Call>, k: nat, n: nat)
    requires k <= n <= |calls|
    ensures forall id :: id in Run(env, calls[..k]).issued ==> id in Run(env, calls[..n]).issued
    decreases n
  {
    hide Step, JtiOf;
    if k < n {
      IssuedStays(env, calls, k, n - 1);
      assert calls[..n][..n - 1] == calls[..n - 1];
      var more := CallIssues(env, Run(env, calls[..n - 1]), calls[n - 1]);
    }
  }

  lemma HandedStaysIssued(env: Env, calls: seq<Call>, k: nat, i: nat, token: ActionToken)
    requires k < i <= |calls|
    ensures Hands(env, calls, k, token) ==>
      && token.payload.jti in Run(env, calls[..i]).issued && token.payload.jti in JtiOf(calls[k])
      && token.payload.expiresAt == IssueTime(calls[k]) + TOKEN_TTL
  {
    hide Step, JtiOf, TokenOf;
    if Hands(env, calls, k, token) {
      HandedIsIssued(env, Run(env, calls[..k]), calls[k]);
      assert calls[..k + 1][..k] == calls[..k];
      IssuedStays(env, calls, k + 1, i);
    }
  }

  /** If signatures cannot be forged, whatever is accepted in a run is, with its subject, its action and its expiry, the
      token with which exactly one earlier call was answered, in the time that this call gave it; its id stands in the
      issuer's list and at the same place in the audit log, once. With TokenAcceptedAtMostOnce: issued once, logged
      once, accepted at most once. */
  lemma AcceptedWasIssuedOnce(env: Env, calls: seq<Call>, i: int)
    requires FreshJtis(calls) && Unforgeable(env, calls) && 0 <= i < |calls|
    ensures Accepts(env, calls, i) ==>
      var b, token := Run(env, calls[..i]), calls[i].token;
      && (exists k :: 0 <= k < i && Hands(env, calls, k, token) && calls[i].now <= IssueTime(calls[k]) + TOKEN_TTL)
      && (forall k, other :: 0 <= k < i && Hands(env, calls, k, other) && other.payload.jti == token.payload.jti ==>
            Hands(env, calls, k, token) && other == token)
      && (forall k, m :: 0 <= k < m < i ==> !(Hands(env, calls, k, token) && Hands(env, calls, m, token)))
      && token.payload.jti in b.issued && Distinct(b.issued) && TokenIds(b.records) == b.issued
  {
    if Accepts(env, calls, i) {
      hide Step, Run, TokenIds, JtiOf, TokenOf, Hands;
      var b, token := Run(env, calls[..i]), calls[i].token;
      ConsumeReply(env, b, calls[i]);
      var k :| 0 <= k < i && Hands(env, calls, k, token);
      HandedStaysIssued(env, calls, k, i, token);
      forall m, other | 0 <= m < i && Hands(env, calls, m, other) && other.payload.jti == token.payload.jti
        ensures m == k && other == token
      {
        HandedStaysIssued(env, calls, m, i, other);
        SameJtiSameCall(calls, k, m, token.payload.jti);
        OneTokenPerCall(env, calls, k, token, other);
      }
      LogAgreesWithIssuer(env, calls[..i]);
      forall j, l | 0 <= j < l < i ensures JtiOf(calls[..i][j]) !! JtiOf(calls[..i][l]) {
        assert JtiOf(calls[j]) !! JtiOf(calls[l]);
      }
      IssuedIdsAreDistinct(env, calls[..i]);
    }
  }

  /** A token that a call handed out, with a non-empty id, is accepted exactly within sixty seconds of its issue and as
      long as its id has not been consumed. */
  lemma HandedIsAcceptedOnce(env: Env, calls: seq<Call>, k: int, i: int)
    requires 0 <= k < i < |calls| && calls[i].Consume?
    ensures var jti := calls[i].token.payload.jti;
      Hands(env, calls, k, calls[i].token) && jti != "" ==>
      (Accepts(env, calls, i) <==> calls[i].now <= IssueTime(calls[k]) + 60 && !AcceptedBefore(env, calls, i, jti))
  {
    hide Run, Step, TokenOf, Accepts, AcceptedBefore;
    if Hands(env, calls, k, calls[i].token) {
      HandedIsIssued(env, Run(env, calls[..k]), calls[k]);
      AcceptsIff(env, calls, i);
    }
  }

  lemma SameJtiSameCall(calls: seq<Call>, k: int, m: int, jti: string)
    requires FreshJtis(calls) && 0 <= k < |calls| && 0 <= m < |calls|
    requires jti in JtiOf(calls[k]) && jti in JtiOf(calls[m])
    ensures k == m
  {
    hide JtiOf, FreshJtis;
    DrawnOnce(calls, jti);
  }

  lemma DrawnOnce(calls: seq<Call>, jti: string)
    requires FreshJtis(calls)
    ensures forall a, b :: 0 <= a < b < |calls| && jti in JtiOf(calls[a]) ==> jti !in JtiOf(calls[b])
  {
    hide JtiOf;
  }

  lemma OneTokenPerCall(env: Env, calls: seq<Call>, k: int, token: ActionToken, other: ActionToken)
    requires 0 <= k < |calls|
    ensures Hands(env, calls, k, token) && Hands(env, calls, k, other) ==> token == other
  {
    hide Step, Run, TokenOf;
  }
}
