/** The payment gateway: spending limits, human approvals, action tokens, and one audit log that
    doubles as the spending ledger. */
module Gateway {
  import opened Wrappers
  import opened PyValues
  import opened AuditLog
  import RP = RuntimePolicy

  // ---------- Data ----------

  /** The gateway's own policy; `maxAmount == None` is `float("inf")`. Empty sets do not restrict. */
  datatype Policy = Policy(
    maxAmount: Option<real>,
    allowedMerchants: set<string>,
    allowedPurposes: set<string>,
    allowedActions: set<string>,
    allowedDestinations: set<string>,
    dailyLimit: Option<real>)

  datatype ApprovalStatus = Pending | Approved | Rejected | Expired

  datatype Approval = Approval(
    approvalId: string,
    requestHash: PyValue,
    agentId: string,
    reason: string,
    riskScore: int,
    riskFlags: seq<string>,
    status: ApprovalStatus,
    createdAt: int,
    expiresAt: int,
    request: Dict)

  /** What the gateway is configured with; `hex` is the hash text of a request. */
  datatype Env = Env(policy: Policy, runtime: RP.Policy, hex: PyValue -> string)

  /** All that the gateway remembers: approvals in the order in which they were created, the audit
      log, the ids of the tokens issued and of the tokens consumed. */
  datatype Books = Books(
    approvals: seq<Approval>,
    records: seq<AuditRecord>,
    issued: seq<string>,
    used: set<string>)

  const EMPTY_BOOKS := Books([], [], [], {})

  const SECONDS_PER_DAY := 86400
  const APPROVAL_TTL := 3600

  function StartOfDay(now: int): int {
    now - now % SECONDS_PER_DAY
  }

  function Text(v: PyValue): string {
    if v.PyStr? then v.s else ""
  }

  function Flags(flags: seq<string>): PyValue {
    PyList(seq(|flags|, i requires 0 <= i < |flags| => PyStr(flags[i])))
  }

  // ---------- The audit log as a ledger ----------

  /** The record counts against this agent or this wallet. */
  predicate SharesPayer(r: AuditRecord, agent: PyValue, wallet: PyValue) {
    agent == Get(r.request, "agent_id", PyNone) || wallet == Get(r.request, "wallet_address", PyNone)
  }

  function LedgerAmount(r: AuditRecord): real {
    Float(Get(r.request, "amount", PyNum(0.0)))
  }

  function RawAmount(r: AuditRecord): int {
    Trunc(Float(Get(r.request, "amount_raw", Get(r.request, "amount", PyNum(0.0)))))
  }

  function RawLedgerAmount(r: AuditRecord): real {
    RawAmount(r) as real
  }

  /** What APPROVED records since `start` have spent for the agent or the wallet. */
  function Used(records: seq<AuditRecord>, weight: AuditRecord -> real, start: int, agent: PyValue,
                wallet: PyValue): real
  {
    if records == [] then 0.0
    else
      var r := records[|records| - 1];
      Used(records[..|records| - 1], weight, start, agent, wallet)
      + (if r.status == APPROVED && start <= r.timestamp && SharesPayer(r, agent, wallet) then weight(r) else 0.0)
  }

  /** `check_daily_limit`, for an amount asked for at time `now`. */
  predicate WithinDailyLimit(p: Policy, records: seq<AuditRecord>, request: Dict, now: int) {
    p.dailyLimit.Some? ==>
      Used(records, LedgerAmount, StartOfDay(now), Get(request, "agent_id", PyNone),
        Get(request, "wallet_address", PyNone))
      + Float(Get(request, "amount", PyNum(0.0))) <= p.dailyLimit.value
  }

  // ---------- Policy and risk ----------

  predicate Restricts(allowed: set<string>, v: PyValue) {
    allowed != {} && !(v.PyStr? && v.s in allowed)
  }

  /** `PolicyEngine.evaluate` of the policy package: the first violated rule. */
  function EvaluatePolicy(p: Policy, request: Dict): Option<string> {
    if p.maxAmount.Some? && Float(Get(request, "amount", PyNum(0.0))) > p.maxAmount.value
    then Some("amount_exceeds_limit")
    else if Restricts(p.allowedActions, Get(request, "action", PyNone)) then Some("action_not_allowed")
    else if Restricts(p.allowedPurposes, Get(request, "purpose", PyNone)) then Some("purpose_not_allowed")
    else if Truthy(Get(request, "merchant", PyNone)) && Restricts(p.allowedMerchants, Get(request, "merchant", PyNone))
    then Some("merchant_not_allowed")
    else None
  }

  predicate DestinationAllowed(p: Policy, request: Dict) {
    !Restricts(p.allowedDestinations, Get(request, "destination", PyStr("")))
  }

  /** `decide_risk_action` of a request that passed the policy. */
  function DecideRisk(score: int): (Status, Option<string>) {
    if score >= 40 then (REQUIRE_APPROVAL, Some("RISK_SCORE_THRESHOLD"))
    else if score >= 31 then (CONDITIONAL_APPROVAL, Some("CONDITIONAL_RISK_ALLOWED"))
    else (APPROVED, None)
  }

  // ---------- Records ----------

  /** The request part of a record written by `append_audit_record`. */
  function LedgerRequest(request: Dict, decision: Status, tokenId: Option<string>, reason: Option<string>,
                         payload: bool, score: int, flags: seq<string>): Dict
  {
    map[
      "agent_id" := Get(request, "agent_id", PyStr("")),
      "wallet_address" := Get(request, "wallet_address", PyStr("")),
      "action" := Get(request, "action", PyStr("")),
      "amount" := PyNum(Float(Get(request, "amount", PyNum(0.0)))),
      "currency" := Get(request, "currency", PyStr("")),
      "destination" := Get(request, "destination", PyStr("")),
      "policy_id" := PyStr("default_policy"),
      "decision" := PyStr(StatusText(decision)),
      "reason" := OptionalText(reason),
      "token_id" := OptionalText(tokenId),
      "tx_payload_exists" := PyBool(payload),
      "request_hash" := Get(request, "request_hash", PyNone),
      "risk_score" := PyNum(score as real),
      "risk_flags" := Flags(flags)]
  }

  function LedgerRecord(request: Dict, decision: Status, tokenId: Option<string>, reason: Option<string>,
                        payload: bool, score: int, flags: seq<string>, stamp: int): AuditRecord
  {
    AuditRecord(decision, Text(Get(request, "agent_id", PyStr(""))),
                LedgerRequest(request, decision, tokenId, reason, payload, score, flags), reason, tokenId, stamp, None)
  }

  function ApprovalTag(approvalId: string): Dict {
    map["approval_id" := PyStr(approvalId)]
  }

  function ExpiryRecord(a: Approval, stamp: int): AuditRecord {
    AuditRecord(EXPIRED, a.agentId, ApprovalTag(a.approvalId)["request_hash" := a.requestHash],
                Some("APPROVAL_EXPIRED"), None, stamp, None)
  }

  function RejectionRecord(a: Approval, stamp: int): AuditRecord {
    AuditRecord(REJECTED_BY_HUMAN, a.agentId, ApprovalTag(a.approvalId)["request_hash" := a.requestHash],
                Some("HUMAN_REJECTED"), None, stamp, None)
  }

  /** `submit` is what was submitted to the ledger, if anything. */
  function GrantRecord(a: Approval, jti: string, submit: Dict, stamp: int): AuditRecord {
    AuditRecord(APPROVED_AFTER_HUMAN_APPROVAL, a.agentId,
      Annotate(ApprovalTag(a.approvalId)["request_hash" := a.requestHash], submit),
                Some("HUMAN_APPROVED"), Some(jti), stamp, None)
  }

  const DETAIL_KEYS: set<string> := {
    "tx_hash", "submit_status", "submit_error", "decision", "tx_payload_exists", "risk_score", "risk_flags",
    "policy_id", "policy_version", "policy_source", "applied_limits", "trustline_check", "runtime_mode",
    "token_expires_at", "remaining_seconds"}

  /** A copy of a request with execution details written over it. */
  function Annotate(request: Dict, details: Dict): Dict {
    request + (map k | k in details && k in DETAIL_KEYS :: details[k])
  }

  // ---------- Approvals ----------

  predicate Due(a: Approval, now: int) {
    a.status == Pending && a.expiresAt <= now
  }

  function ExpireOne(a: Approval, now: int): Approval {
    if Due(a, now) then a.(status := Expired) else a
  }

  function ExpireAll(approvals: seq<Approval>, now: int): seq<Approval> {
    seq(|approvals|, i requires 0 <= i < |approvals| => ExpireOne(approvals[i], now))
  }

  function ExpiryRecords(approvals: seq<Approval>, now: int, stamp: int): seq<AuditRecord> {
    if approvals == [] then []
    else
      var last := approvals[|approvals| - 1];
      ExpiryRecords(approvals[..|approvals| - 1], now, stamp)
      + (if Due(last, now) then [Sealed(ExpiryRecord(last, stamp))] else [])
  }

  lemma ExpiryUnfolds(approvals: seq<Approval>, i: int, now: int, stamp: int)
    requires 0 <= i < |approvals|
    ensures ExpireAll(approvals[..i + 1], now) == ExpireAll(approvals[..i], now) + [ExpireOne(approvals[i], now)]
    ensures ExpiryRecords(approvals[..i + 1], now, stamp) == ExpiryRecords(approvals[..i], now, stamp)
         + (if Due(approvals[i], now) then [Sealed(ExpiryRecord(approvals[i], stamp))] else [])
  {
    assert approvals[..i + 1][..i] == approvals[..i];
  }

  lemma ExpiryStarts(now: int, stamp: int)
    ensures ExpireAll([], now) == [] && ExpiryRecords([], now, stamp) == []
  {
  }

  /** One turn of the expiry loop: the entry after the `done` ones is replaced by its expired form. */
  lemma ExpiryTurn(approvals: seq<Approval>, i: int, now: int)
    requires 0 <= i < |approvals|
    ensures (ExpireAll(approvals[..i], now) + approvals[i..])[i := ExpireOne(approvals[i], now)]
         == ExpireAll(approvals[..i + 1], now) + approvals[i + 1..]
    ensures (ExpireAll(approvals[..i], now) + approvals[i..])[i] == approvals[i]
  {
    ExpiryUnfolds(approvals, i, now, 0);
  }

  function AfterExpiry(b: Books, now: int, stamp: int): Books {
    b.(approvals := ExpireAll(b.approvals, now), records := b.records + ExpiryRecords(b.approvals, now, stamp))
  }

  /** Where an approval is kept. */
  function Find(approvals: seq<Approval>, id: string): (r: Option<nat>)
    ensures r.Some? ==> r.value < |approvals| && approvals[r.value].approvalId == id
    ensures r.None? ==> forall i :: 0 <= i < |approvals| ==> approvals[i].approvalId != id
  {
    if approvals == [] then None
    else if approvals[0].approvalId == id then Some(0)
    else
      var r := Find(approvals[1..], id);
      if r.Some? then Some(r.value + 1)
      else
        assert forall i :: 0 < i < |approvals| ==> approvals[i] == approvals[1..][i - 1];
        None
  }

  function Opened(request: Dict, reason: string, score: int, flags: seq<string>, freshId: string,
                  createdAt: int): Approval
  {
    Approval(freshId, Get(request, "request_hash", PyNone), Text(Get(request, "agent_id", PyNone)),
             reason, score, flags, Pending, createdAt, createdAt + APPROVAL_TTL, request)
  }

  function AfterCreate(b: Books, request: Dict, reason: string, score: int, flags: seq<string>,
                       freshId: string, createdAt: int, stamp: int): Books
  {
    var a := Opened(request, reason, score, flags, freshId, createdAt);
    var r := LedgerRecord(request, REQUIRE_APPROVAL, None, Some(reason), false, score, flags, stamp);
    b.(approvals := b.approvals + [a],
       records := b.records + [Sealed(r.(request := r.request["approval_id" := PyStr(freshId)]))])
  }

  datatype Reply =
    | NotFound
    | InvalidStatus(status: ApprovalStatus)
    | Granted(token: ActionToken)
    | RejectedReply
    | Decided(decision: Status, reason: Option<string>, given: Option<ActionToken>)
    | NoToken
    | Token(token: ActionToken)
    | Verified(verdict: TokenVerdict)

  /** What an action token says: for whom and for which action it is, and until when. */
  datatype Payload = Payload(jti: string, subject: string, action: Dict, expiresAt: int)

  /** An ideal signature: it says of which payload the gateway's key has made it, if it has. */
  datatype Signature = SignedByGateway(payload: Payload) | OtherSignature

  datatype ActionToken = ActionToken(payload: Payload, signature: Signature)

  function Sign(p: Payload): ActionToken {
    ActionToken(p, SignedByGateway(p))
  }

  predicate Genuine(t: ActionToken) {
    t.signature == SignedByGateway(t.payload)
  }

  const TOKEN_TTL := 60

  datatype TokenVerdict = TokenOk | InvalidSignature | TokenExpired | MissingJti | ReplayDetected

  // ---------- The operations ----------

  datatype ActionInput = ActionInput(
    agentId: string, walletAddress: string, action: string, amount: real, currency: string, destination: string,
    purpose: string, context: PyValue)

  /** Risk as the anomaly detectors answer it; `demo` is the simulated mode of the legacy path. */
  datatype RiskAnswer = RiskAnswer(score: int, flags: seq<string>, demo: bool)

  /** The clock as one call reads it: for its checks, for the records it writes, and for the token it issues. */
  datatype Clock = Clock(check: int, stamp: int, issue: int)

  /** The fresh identifiers a call may draw. */
  datatype FreshIds = FreshIds(jti: string, approvalId: string)

  datatype Call =
    | ProcessAction(input: ActionInput, risk: RiskAnswer, ids: FreshIds, clock: Clock)
    | RequestExecution(agentDid: string, request: Dict, facts: RP.Circumstances, risk: RiskAnswer, details: Dict,
                       ids: FreshIds, clock: Clock)
    | Approve(approvalId: string, submit: Dict, ids: FreshIds, clock: Clock)
    | Reject(approvalId: string, clock: Clock)
    | Consume(token: ActionToken, now: int)

  /** The token a call issues. */
  function Issue(subject: string, action: Dict, ids: FreshIds, clock: Clock): ActionToken {
    Sign(Payload(ids.jti, subject, action, clock.issue + TOKEN_TTL))
  }

  function ActionRequest(env: Env, i: ActionInput, now: int): Dict {
    var request: Dict := map[
      "agent_id" := PyStr(i.agentId), "wallet_address" := PyStr(i.walletAddress), "action" := PyStr(i.action),
      "amount" := PyNum(i.amount), "currency" := PyStr(i.currency), "destination" := PyStr(i.destination),
      "purpose" := PyStr(i.purpose), "context" := i.context, "timestamp" := PyNum(now as real),
      "merchant" := PyStr(i.destination)];
    request["request_hash" := PyStr(env.hex(PyDict(request)))]
  }

  function Log(b: Books, r: AuditRecord): Books {
    b.(records := b.records + [Sealed(r)])
  }

  /** A token is issued and the record that carries its id is written. */
  function LogWithToken(b: Books, r: AuditRecord, jti: string): Books {
    Log(b.(issued := b.issued + [jti]), r)
  }

  function ProcessReason(env: Env, b: Books, request: Dict, clock: Clock): Option<string> {
    var policy := EvaluatePolicy(env.policy, request);
    if policy.Some? then policy
    else if !DestinationAllowed(env.policy, request) then Some("DESTINATION_NOT_ALLOWED")
    else if !WithinDailyLimit(env.policy, b.records, request, clock.check) then Some("DAILY_LIMIT_EXCEEDED")
    else None
  }

  function AfterProcess(env: Env, b: Books, i: ActionInput, risk: RiskAnswer, ids: FreshIds,
                        clock: Clock): (Books, Reply)
  {
    var request := ActionRequest(env, i, clock.check);
    var reason := ProcessReason(env, b, request, clock);
    if reason.Some? then
      (Log(b, LedgerRecord(request, BLOCKED, None, reason, false, 0, [], clock.stamp)), Decided(BLOCKED, reason, None))
    else
      var (decision, why) := DecideRisk(risk.score);
      if decision == REQUIRE_APPROVAL then
        (AfterCreate(b, request, why.value, risk.score, risk.flags, ids.approvalId, clock.check, clock.stamp),
         Decided(decision, why, None))
      else
        var text := if decision == APPROVED then Some("policy_ok") else why;
        (LogWithToken(b, LedgerRecord(request, decision, Some(ids.jti), text, true, risk.score, risk.flags,
                                     clock.stamp),
                      ids.jti),
         Decided(decision, why, Some(Issue(i.agentId, request, ids, clock))))
  }

  predicate IsXrp(currency: string) {
    && |currency| == 3
    && currency[0] in {'X', 'x'} && currency[1] in {'R', 'r'} && currency[2] in {'P', 'p'}
  }

  /** The copy of a request that execution works on: amounts normalized, hash filled in. */
  function Normalize(env: Env, request: Dict): Dict {
    var raw := Float(Get(request, "amount", PyNum(0.0)));
    var normalized := if IsXrp(Text(Get(request, "currency", PyStr("")))) then raw * 1000000.0 else raw;
    var raised := request["amount_raw" := PyNum(raw)]["amount_normalized" := PyNum(normalized)];
    var filled := raised["amount" := PyNum(normalized)];
    if Truthy(Get(filled, "request_hash", PyNone)) then filled
    else filled["request_hash" := PyStr(env.hex(PyDict(filled)))]
  }

  function PolicyAmount(request: Dict): int {
    var key := if Text(Get(request, "currency", PyStr(""))) == "XRP" then "amount_raw" else "amount";
    Trunc(Float(Get(request, key, PyNum(0.0))))
  }

  function RuntimeUsed(records: seq<AuditRecord>, request: Dict, now: int): int {
    UsedRaw(records, StartOfDay(now), Get(request, "agent_id", PyNone), Get(request, "wallet_address", PyNone))
  }

  /** As `Used`, in whole units of the raw amounts. */
  function UsedRaw(records: seq<AuditRecord>, start: int, agent: PyValue, wallet: PyValue): int {
    if records == [] then 0
    else
      var r := records[|records| - 1];
      UsedRaw(records[..|records| - 1], start, agent, wallet)
      + (if r.status == APPROVED && start <= r.timestamp && SharesPayer(r, agent, wallet) then RawAmount(r) else 0)
  }

  function RuntimePayment(agentDid: string, request: Dict): RP.Payment {
    RP.Payment(Text(Get(request, "agent_id", PyStr(agentDid))), Text(Get(request, "action", PyStr(""))),
               PolicyAmount(request), Text(Get(request, "destination", PyStr(""))),
               Text(Get(request, "purpose", PyStr(""))))
  }

  /** `request_execution` with an unlimited gateway policy: the runtime policy decides. It never asks for
      human approval (RuntimePolicy.ApprovedIff), so there is no such branch here. */
  function AfterRuntime(env: Env, b: Books, agentDid: string, request: Dict, facts: RP.Circumstances, details: Dict,
                        ids: FreshIds, clock: Clock): (Books, Reply)
  {
    var e := RP.Evaluate(env.runtime, RuntimePayment(agentDid, request), RuntimeUsed(b.records, request, clock.check),
      facts);
    var record := AuditRecord(e.decision, agentDid, Annotate(request, details), e.reason, None, clock.stamp, None);
    if e.decision == BLOCKED then (Log(b, record), NoToken)
    else (LogWithToken(b, record.(tokenId := Some(ids.jti)), ids.jti), Token(Issue(agentDid, request, ids, clock)))
  }

  /** The defaults the legacy path writes into the request first. */
  function LegacyRequest(agentDid: string, request: Dict): Dict {
    var agent := Get(request, "agent_id", PyNone);
    var r1 := request["agent_id" := if Truthy(agent) then agent else PyStr(agentDid)];
    var r2 := r1["wallet_address" := Get(r1, "wallet_address", PyStr(""))];
    var r3 := r2["destination" := Get(r2, "destination", Get(r2, "merchant", PyStr("")))];
    r3["merchant" := Get(r3, "merchant", r3["destination"])]
  }

  function LegacyReason(env: Env, request: Dict): Option<string> {
    if Float(Get(request, "amount", PyNum(0.0))) > 1000.0 then Some("AMOUNT_GUARDRAIL_EXCEEDED")
    else if EvaluatePolicy(env.policy, request).Some? then EvaluatePolicy(env.policy, request)
    else if Restricts(env.policy.allowedDestinations, Get(request, "destination", PyStr("")))
    then Some("destination_not_allowed")
    else None
  }

  function AfterLegacy(env: Env, b: Books, agentDid: string, given: Dict, risk: RiskAnswer, details: Dict,
                       ids: FreshIds, clock: Clock): (Books, Reply)
  {
    var request := LegacyRequest(agentDid, given);
    var reason := LegacyReason(env, request);
    if reason.Some? then (Log(b, AuditRecord(BLOCKED, agentDid, request, reason, None, clock.stamp, None)), NoToken)
    else if !risk.demo && risk.score >= 40 then
      (AfterCreate(b, request, "RISK_SCORE_THRESHOLD", risk.score, risk.flags, ids.approvalId, clock.check,
        clock.stamp), NoToken)
    else
      var record := AuditRecord(APPROVED, agentDid, Annotate(request, details), Some("policy_ok"), Some(ids.jti),
                                clock.stamp, None);
      (LogWithToken(b, record, ids.jti), Token(Issue(agentDid, request, ids, clock)))
  }

  function AfterExecution(env: Env, b: Books, agentDid: string, given: Dict, facts: RP.Circumstances, risk: RiskAnswer,
                          details: Dict, ids: FreshIds, clock: Clock): (Books, Reply)
  {
    var request := Normalize(env, given);
    if env.policy.maxAmount.Some? then AfterLegacy(env, b, agentDid, request, risk, details, ids, clock)
    else AfterRuntime(env, b, agentDid, request, facts, details, ids, clock)
  }

  function AfterApprove(b: Books, id: string, submit: Dict, ids: FreshIds, clock: Clock): (Books, Reply) {
    var e := AfterExpiry(b, clock.check, clock.stamp);
    var i := Find(e.approvals, id);
    if i.None? then (e, NotFound)
    else
      var a := e.approvals[i.value];
      if a.status != Pending then (e, InvalidStatus(a.status))
      else
        (LogWithToken(e.(approvals := e.approvals[i.value := a.(status := Approved)]),
                      GrantRecord(a, ids.jti, submit, clock.stamp), ids.jti),
         Granted(Issue(a.agentId, a.request, ids, clock)))
  }

  function AfterReject(b: Books, id: string, clock: Clock): (Books, Reply) {
    var e := AfterExpiry(b, clock.check, clock.stamp);
    var i := Find(e.approvals, id);
    if i.None? then (e, NotFound)
    else
      var a := e.approvals[i.value];
      if a.status != Pending then (e, InvalidStatus(a.status))
      else
        (Log(e.(approvals := e.approvals[i.value := a.(status := Rejected)]), RejectionRecord(a, clock.stamp)),
         RejectedReply)
  }

  /** `verify_token` */
  function Verify(used: set<string>, t: ActionToken, consume: bool, now: int): TokenVerdict {
    if !Genuine(t) then InvalidSignature
    else if t.payload.expiresAt < now then TokenExpired
    else if t.payload.jti == "" then MissingJti
    else if consume && t.payload.jti in used then ReplayDetected
    else TokenOk
  }

  function AfterConsume(b: Books, t: ActionToken, now: int): (Books, Reply) {
    var v := Verify(b.used, t, true, now);
    (if v == TokenOk then b.(used := b.used + {t.payload.jti}) else b, Verified(v))
  }

  function Step(env: Env, b: Books, c: Call): (Books, Reply) {
    match c
    case ProcessAction(input, risk, ids, clock) => AfterProcess(env, b, input, risk, ids, clock)
    case RequestExecution(agentDid, request, facts, risk, details, ids, clock) =>
      AfterExecution(env, b, agentDid, request, facts, risk, details, ids, clock)
    case Approve(id, submit, ids, clock) => AfterApprove(b, id, submit, ids, clock)
    case Reject(id, clock) => AfterReject(b, id, clock)
    case Consume(token, now) => AfterConsume(b, token, now)
  }

  function Run(env: Env, calls: seq<Call>): Books {
    if calls == [] then EMPTY_BOOKS else Step(env, Run(env, calls[..|calls| - 1]), calls[|calls| - 1]).0
  }

  // ---------- The objects ----------

  class TokenIssuer {
    var usedJtis: set<string>
    var issuedJti: seq<string>

    constructor ()
      ensures usedJtis == {} && issuedJti == []
    {
      usedJtis, issuedJti := {}, [];
    }

    method IssueToken(subject: string, action: Dict, ids: FreshIds, clock: Clock) returns (token: ActionToken)
      modifies this
      ensures issuedJti == old(issuedJti) + [ids.jti] && usedJtis == old(usedJtis)
      ensures token == Issue(subject, action, ids, clock)
    {
      var payload := Payload(ids.jti, subject, action, clock.issue + TOKEN_TTL);
      issuedJti := issuedJti + [payload.jti];
      token := Sign(payload);
    }

    method VerifyToken(token: ActionToken, consume: bool, now: int) returns (v: TokenVerdict)
      modifies this
      ensures v == Verify(old(usedJtis), token, consume, now)
      ensures usedJtis == (if consume && v == TokenOk then old(usedJtis) + {token.payload.jti} else old(usedJtis))
      ensures issuedJti == old(issuedJti)
    {
      if !Genuine(token) {
        return InvalidSignature;
      }
      if token.payload.expiresAt < now {
        return TokenExpired;
      }
      var jti := token.payload.jti;
      if jti == "" {
        return MissingJti;
      }
      if consume {
        if jti in usedJtis {
          return ReplayDetected;
        }
        usedJtis := usedJtis + {jti};
      }
      v := TokenOk;
    }
  }

  class AgentGuardGateway {
    const env: Env
    const auditLog: MerkleAuditLog
    const issuer: TokenIssuer
    var approvals: seq<Approval>

    ghost function View(): Books
      reads this, auditLog, issuer
    {
      Books(approvals, auditLog.records, issuer.issuedJti, issuer.usedJtis)
    }

    constructor (env: Env)
      ensures this.env == env && View() == EMPTY_BOOKS
      ensures fresh(auditLog) && fresh(issuer)
    {
      this.env := env;
      auditLog := new MerkleAuditLog();
      issuer := new TokenIssuer();
      approvals := [];
    }

    method ExpireApprovalRequests(now: int, stamp: int)
      modifies this, auditLog
      ensures View() == AfterExpiry(old(View()), now, stamp)
    {
      ghost var before, log := approvals, auditLog.records;
      hide ExpireAll, ExpiryRecords, ExpiryRecord, Sealed;
      var i := 0;
      ExpiryStarts(now, stamp);
      while i < |approvals|
        invariant 0 <= i <= |approvals| == |before|
        invariant approvals == ExpireAll(before[..i], now) + before[i..]
        invariant auditLog.records == log + ExpiryRecords(before[..i], now, stamp)
        invariant issuer.issuedJti == old(issuer.issuedJti) && issuer.usedJtis == old(issuer.usedJtis)
      {
        ExpiryTurn(before, i, now);
        ExpiryUnfolds(before, i, now, stamp);
        var a := approvals[i];
        if a.status == Pending && a.expiresAt <= now {
          approvals := approvals[i := a.(status := Expired)];
          auditLog.Append(ExpiryRecord(a, stamp));
        } else {
          assert approvals[i := a] == approvals;
        }
        i := i + 1;
      }
      assert before[..i] == before && before[i..] == [];
    }

  method CreateApprovalRequest(request: Dict, reason: string, score: int, flags: seq<string>, freshId: string,
                                 clock: Clock)
      modifies this, auditLog
      ensures View() == AfterCreate(old(View()), request, reason, score, flags, freshId, clock.check, clock.stamp)
    {
      hide Sealed, Patched, LedgerRecord, Get, Text;
      var a := Opened(request, reason, score, flags, freshId, clock.check);
      approvals := approvals + [a];
      var r := LedgerRecord(request, REQUIRE_APPROVAL, None, Some(reason), false, score, flags, clock.stamp);
      auditLog.Append(r);
      auditLog.PatchLast("approval_id", PyStr(freshId));
      PatchedSnoc(old(auditLog.records), Sealed(r), "approval_id", PyStr(freshId));
      ResealingForgetsTheOldHash(r, r.request["approval_id" := PyStr(freshId)]);
    }

    method ApproveRequest(id: string, submit: Dict, ids: FreshIds, clock: Clock) returns (reply: Reply)
      modifies this, auditLog, issuer
      ensures (View(), reply) == Step(env, old(View()), Approve(id, submit, ids, clock))
    {
      ExpireApprovalRequests(clock.check, clock.stamp);
      var i := Find(approvals, id);
      if i.None? {
        return NotFound;
      }
      var a := approvals[i.value];
      if a.status != Pending {
        return InvalidStatus(a.status);
      }
      approvals := approvals[i.value := a.(status := Approved)];
      var token := issuer.IssueToken(a.agentId, a.request, ids, clock);
      auditLog.Append(GrantRecord(a, ids.jti, submit, clock.stamp));
      reply := Granted(token);
    }

    method RejectRequest(id: string, clock: Clock) returns (reply: Reply)
      modifies this, auditLog
      ensures (View(), reply) == Step(env, old(View()), Reject(id, clock))
    {
      ExpireApprovalRequests(clock.check, clock.stamp);
      var i := Find(approvals, id);
      if i.None? {
        return NotFound;
      }
      var a := approvals[i.value];
      if a.status != Pending {
        return InvalidStatus(a.status);
      }
      approvals := approvals[i.value := a.(status := Rejected)];
      auditLog.Append(RejectionRecord(a, clock.stamp));
      reply := RejectedReply;
    }

    /** The loop of `check_daily_limit` over the audit log. */
    method CheckDailyLimit(request: Dict, now: int) returns (ok: bool)
      ensures ok == WithinDailyLimit(env.policy, auditLog.records, request, now)
    {
      if env.policy.dailyLimit.None? {
        return true;
      }
      var start := now - now % SECONDS_PER_DAY;
      var agent, wallet := Get(request, "agent_id", PyNone), Get(request, "wallet_address", PyNone);
      var usedToday := 0.0;
      var records := auditLog.records;
      for i := 0 to |records|
        invariant usedToday == Used(records[..i], LedgerAmount, start, agent, wallet)
      {
        var r := records[i];
        assert records[..i + 1][..i] == records[..i];
        if !(r.timestamp < start || r.status != APPROVED) && SharesPayer(r, agent, wallet) {
          usedToday := usedToday + Float(Get(r.request, "amount", PyNum(0.0)));
        }
      }
      assert records[..|records|] == records;
      ok := !(usedToday + Float(Get(request, "amount", PyNum(0.0))) > env.policy.dailyLimit.value);
    }

    method ProcessActionCall(i: ActionInput, risk: RiskAnswer, ids: FreshIds, clock: Clock) returns (reply: Reply)
      modifies this, auditLog, issuer
      ensures (View(), reply) == Step(env, old(View()), ProcessAction(i, risk, ids, clock))
    {
      var request := ActionRequest(env, i, clock.check);
      var reason := EvaluatePolicy(env.policy, request);
      if reason.None? && !DestinationAllowed(env.policy, request) {
        reason := Some("DESTINATION_NOT_ALLOWED");
      }
      if reason.None? {
        var ok := CheckDailyLimit(request, clock.check);
        if !ok {
          reason := Some("DAILY_LIMIT_EXCEEDED");
        }
      }
      assert reason == ProcessReason(env, View(), request, clock);
      hide ActionRequest, ProcessReason;
      if reason.Some? {
        auditLog.Append(LedgerRecord(request, BLOCKED, None, reason, false, 0, [], clock.stamp));
        return Decided(BLOCKED, reason, None);
      }
      var (decision, why) := DecideRisk(risk.score);
      if decision == REQUIRE_APPROVAL {
        CreateApprovalRequest(request, why.value, risk.score, risk.flags, ids.approvalId, clock);
        return Decided(decision, why, None);
      }
      var token := issuer.IssueToken(i.agentId, request, ids, clock);
      var text := if decision == APPROVED then Some("policy_ok") else why;
      auditLog.Append(LedgerRecord(request, decision, Some(ids.jti), text, true, risk.score, risk.flags, clock.stamp));
      reply := Decided(decision, why, Some(token));
    }

    /** The loop of `request_execution` over the audit log. */
    method RuntimeUsedToday(request: Dict, now: int) returns (usedToday: int)
      ensures usedToday == RuntimeUsed(auditLog.records, request, now)
    {
      usedToday := 0;
      var start := now - now % SECONDS_PER_DAY;
      var agent, wallet := Get(request, "agent_id", PyNone), Get(request, "wallet_address", PyNone);
      var records := auditLog.records;
      for i := 0 to |records|
        invariant usedToday == UsedRaw(records[..i], start, agent, wallet)
      {
        var r := records[i];
        assert records[..i + 1][..i] == records[..i];
        if r.status == APPROVED && !(r.timestamp < start) && SharesPayer(r, agent, wallet) {
          usedToday := usedToday + RawAmount(r);
        }
      }
      assert records[..|records|] == records;
    }

    method RequestExecutionCall(agentDid: string, given: Dict, facts: RP.Circumstances, risk: RiskAnswer, details: Dict,
                                ids: FreshIds, clock: Clock)
      returns (reply: Reply)
      modifies this, auditLog, issuer
      ensures (View(), reply)
        == Step(env, old(View()), RequestExecution(agentDid, given, facts, risk, details, ids, clock))
    {
      hide Normalize, Annotate, RP.Evaluate, RuntimePayment, Sealed;
      var request := Normalize(env, given);
      if env.policy.maxAmount.Some? {
        reply := RequestExecutionLegacy(agentDid, request, risk, details, ids, clock);
        return;
      }
      var usedToday := RuntimeUsedToday(request, clock.check);
      var e := RP.EvaluatePolicy(env.runtime, RuntimePayment(agentDid, request), usedToday, facts);
      if e.decision == BLOCKED {
        auditLog.Append(AuditRecord(e.decision, agentDid, Annotate(request, details), e.reason, None, clock.stamp,
          None));
        return NoToken;
      }
      var token := issuer.IssueToken(agentDid, request, ids, clock);
      auditLog.Append(AuditRecord(e.decision, agentDid, Annotate(request, details), e.reason, Some(ids.jti),
        clock.stamp, None));
      reply := Token(token);
    }

  method RequestExecutionLegacy(agentDid: string, given: Dict, risk: RiskAnswer, details: Dict, ids: FreshIds,
                                  clock: Clock)
      returns (reply: Reply)
      modifies this, auditLog, issuer
      ensures (View(), reply) == AfterLegacy(env, old(View()), agentDid, given, risk, details, ids, clock)
    {
      var request := LegacyRequest(agentDid, given);
      var reason := LegacyReason(env, request);
      if reason.Some? {
        auditLog.Append(AuditRecord(BLOCKED, agentDid, request, reason, None, clock.stamp, None));
        return NoToken;
      }
      if !risk.demo && risk.score >= 40 {
        CreateApprovalRequest(request, "RISK_SCORE_THRESHOLD", risk.score, risk.flags, ids.approvalId, clock);
        return NoToken;
      }
      var token := issuer.IssueToken(agentDid, request, ids, clock);
      auditLog.Append(AuditRecord(APPROVED, agentDid, Annotate(request, details), Some("policy_ok"), Some(ids.jti),
                                  clock.stamp, None));
      reply := Token(token);
    }

    method ConsumeTokenForExecution(token: ActionToken, now: int) returns (reply: Reply)
      modifies this, issuer
      ensures (View(), reply) == Step(env, old(View()), Consume(token, now))
    {
      var v := issuer.VerifyToken(token, true, now);
      reply := Verified(v);
    }
  }
}
