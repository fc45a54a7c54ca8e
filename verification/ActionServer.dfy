/** The action server: preview, approve, deny, token, execute and reset over shared state.
    A handler runs without interruption except that execute waits for its executor, so it is
    split at that point and other requests may come in between. */
module ActionServer {
  import opened Wrappers
  import opened CanonicalJson
  import opened TokenService

  datatype Decision = ALLOW | REVIEW_REQUIRED | DENY

  datatype Preview = Preview(decision: Decision, riskScore: int, approvalRequired: bool)

  /** What the server calls but this model does not look into: the key comparison, the reading of
      numeric text, the policy and the risk score. */
  datatype Env = Env(
    le: KeyOrder,
    numeric: NumericText,
    decide: Action -> Decision,
    risk: (Action, nat) -> int)

  datatype BlockReason = PolicyDenied | ApprovalNotGranted | BadToken(verdict: Verdict)

  datatype AuditEvent =
    | ActionRequested(actionId: string)
    | PolicyEvaluated(actionId: string, decision: Decision)
    | RiskScored(actionId: string, score: int)
    | ApprovalRequested(actionId: string)
    | PreviewGenerated(actionId: string, preview: Preview)
    | ActionApproved(actionId: string)
    | ActionDenied(actionId: string)
    | TokenIssued(actionId: string, tokenId: string, expiresAt: int)
    | ValidationFailed(actionId: string, verdict: Verdict)
    | TargetMismatched(actionId: string)
    | UnauthorizedVaultAccess(actionId: string)
    | ExecutionBlocked(actionId: string, reason: BlockReason)
    | ExecutionAttempted(actionId: string)
    | ExecutionCompleted(actionId: string, outcome: string)

  datatype Response =
    | Previewed(preview: Preview)
    | Ruled
    | PathMismatch
    | Issued(tokenId: string)
    | PreviewMissing
    | Refused(reason: BlockReason)
    | Started
    | Completed
    | ResetDone

  datatype State = State(
    previews: map<string, Preview>,
    attempts: map<string, nat>,
    approvals: map<string, Ruling>,
    tokens: map<string, Token>,
    audit: seq<AuditEvent>,
    running: seq<string>)

  const TOKEN_TTL_SECONDS := 120

  const INITIAL := State(map[], map[], map[], map[], [], [])

  function AttemptKey(a: Action): string {
    a.actorId + ":" + a.actionType + ":" + a.targetResource
  }

  function PriorAttempts(attempts: map<string, nat>, key: string): nat {
    if key in attempts then attempts[key] else 0
  }

  /** A loan amount mismatch is reported as a fingerprint mismatch: both are drift. */
  function Reported(v: Verdict): Verdict {
    if v.LoanAmountMismatch? then FingerprintMismatch else v
  }

  // ---------- What the handlers decide and log ----------

  function MakePreview(env: Env, attempts: map<string, nat>, a: Action): Preview {
    Preview(env.decide(a), env.risk(a, PriorAttempts(attempts, AttemptKey(a))), env.decide(a) == REVIEW_REQUIRED)
  }

  function PreviewEvents(actionId: string, p: Preview): seq<AuditEvent> {
    [ActionRequested(actionId), PolicyEvaluated(actionId, p.decision), RiskScored(actionId, p.riskScore)]
    + (if p.approvalRequired then [ApprovalRequested(actionId)] else [])
    + [PreviewGenerated(actionId, p)]
  }

  /** Everything execute decides before it hands the action to the executor. */
  function ExecuteResponse(env: Env, s: State, a: Action, tokenId: string, now: int): Response {
    if a.actionId !in s.previews then PreviewMissing
    else if s.previews[a.actionId].decision == DENY then Refused(PolicyDenied)
    else if
      && s.previews[a.actionId].decision == REVIEW_REQUIRED
      && !(a.actionId in s.approvals && s.approvals[a.actionId] == Approved)
    then Refused(ApprovalNotGranted)
    else
      var v := Check(env.le, env.numeric, s.tokens, tokenId, a, now);
      if v.TokenValid? then Started else Refused(BadToken(Reported(v)))
  }

  function ExecuteEvents(actionId: string, response: Response): seq<AuditEvent> {
    match response
    case Refused(BadToken(v)) =>
      [ValidationFailed(actionId, v)]
      + (if v.TargetMismatch? then [TargetMismatched(actionId), UnauthorizedVaultAccess(actionId)] else [])
      + [ExecutionBlocked(actionId, BadToken(v))]
    case Refused(reason) => [ExecutionBlocked(actionId, reason)]
    case Started => [ExecutionAttempted(actionId)]
    case _ => []
  }

  // ---------- Requests and runs ----------

  datatype Request =
    | PreviewRequest(action: Action)
    | ApproveRequest(actionId: string)
    | DenyRequest(actionId: string)
    | TokenRequest(pathId: string, action: Action, freshId: string, now: int)
    | ExecuteRequest(action: Action, tokenId: string, now: int)
    | CompleteRequest(index: nat, decision: string)
    | ResetRequest

  function Respond(env: Env, s: State, r: Request): Response {
    match r
    case PreviewRequest(a) => Previewed(MakePreview(env, s.attempts, a))
    case ApproveRequest(_) => Ruled
    case DenyRequest(_) => Ruled
    case TokenRequest(pathId, a, freshId, _) => if pathId != a.actionId then PathMismatch else Issued(freshId)
    case ExecuteRequest(a, tokenId, now) => ExecuteResponse(env, s, a, tokenId, now)
    case CompleteRequest(_, _) => Completed
    case ResetRequest => ResetDone
  }

  /** What a request adds to the audit log. */
  function Events(env: Env, s: State, r: Request): seq<AuditEvent> {
    match r
    case PreviewRequest(a) => PreviewEvents(a.actionId, MakePreview(env, s.attempts, a))
    case ApproveRequest(id) => [ActionApproved(id)]
    case DenyRequest(id) => [ActionDenied(id)]
    case TokenRequest(pathId, a, freshId, now) =>
      if pathId != a.actionId then []
      else [TokenIssued(a.actionId, freshId, now + TOKEN_TTL_SECONDS * 1000)]
    case ExecuteRequest(a, tokenId, now) => ExecuteEvents(a.actionId, ExecuteResponse(env, s, a, tokenId, now))
    case CompleteRequest(i, outcome) =>
      if i < |s.running| then [ExecutionCompleted(s.running[i], outcome)] else []
    case ResetRequest => []
  }

  /** What a request does to everything but the audit log. */
  function Effect(env: Env, s: State, r: Request): State {
    match r
    case PreviewRequest(a) =>
      s.(previews := s.previews[a.actionId := MakePreview(env, s.attempts, a)],
         attempts := s.attempts[AttemptKey(a) := PriorAttempts(s.attempts, AttemptKey(a)) + 1])
    case ApproveRequest(id) => s.(approvals := s.approvals[id := Approved])
    case DenyRequest(id) => s.(approvals := s.approvals[id := Denied])
    case TokenRequest(pathId, a, freshId, now) =>
      if pathId != a.actionId then s
      else s.(tokens := s.tokens[freshId := Mint(env.le, env.numeric, a, TOKEN_TTL_SECONDS, freshId, now)])
    case ExecuteRequest(a, tokenId, now) =>
      if ExecuteResponse(env, s, a, tokenId, now) == Started then
        s.(tokens := Spend(s.tokens, tokenId), running := s.running + [a.actionId])
      else s
    case CompleteRequest(i, _) =>
      if i < |s.running| then s.(running := s.running[..i] + s.running[i + 1..]) else s
    case ResetRequest => INITIAL.(running := s.running)
  }

  function Step(env: Env, s: State, r: Request): State {
    var after := Effect(env, s, r);
    after.(audit := after.audit + Events(env, s, r))
  }

  /** The state after a sequence of requests, in the order in which their synchronous parts ran. */
  function Run(env: Env, rs: seq<Request>): State {
    if rs == [] then INITIAL else Step(env, Run(env, rs[..|rs| - 1]), rs[|rs| - 1])
  }

  class Server {
    const env: Env
    const approvals: ApprovalStore
    const tokens: TokenStore
    var previews: map<string, Preview>
    var attemptCounter: map<string, nat>
    var audit: seq<AuditEvent>
    var running: seq<string>

    ghost predicate Valid()
      reads this
    {
      tokens.le == env.le && tokens.numeric == env.numeric
    }

    ghost function View(): State
      reads this, approvals, tokens
    {
      State(previews, attemptCounter, approvals.decisions, tokens.tokens, audit, running)
    }

    constructor (env: Env)
      ensures Valid() && View() == INITIAL
      ensures this.env == env && fresh(approvals) && fresh(tokens)
    {
      this.env := env;
      approvals := new ApprovalStore();
      tokens := new TokenStore(env.le, env.numeric);
      previews := map[];
      attemptCounter := map[];
      audit := [];
      running := [];
    }

    method Log(e: AuditEvent)
      modifies this`audit
      ensures audit == old(audit) + [e]
    {
      audit := audit + [e];
    }

    method PreviewAction(a: Action) returns (response: Response)
      requires Valid()
      modifies this
      ensures Valid()
      ensures response == Respond(env, old(View()), PreviewRequest(a))
      ensures View() == Step(env, old(View()), PreviewRequest(a))
    {
      hide AttemptKey, ExecuteResponse, Mint, Spend;
      Log(ActionRequested(a.actionId));
      var key := AttemptKey(a);
      var attempts := if key in attemptCounter then attemptCounter[key] else 0;
      var decision := env.decide(a);
      Log(PolicyEvaluated(a.actionId, decision));
      var score := env.risk(a, attempts);
      Log(RiskScored(a.actionId, score));
      var approvalRequired := decision == REVIEW_REQUIRED;
      if approvalRequired {
        Log(ApprovalRequested(a.actionId));
      }
      var preview := Preview(decision, score, approvalRequired);
      assert preview == MakePreview(env, old(attemptCounter), a);
      previews := previews[a.actionId := preview];
      attemptCounter := attemptCounter[key := attempts + 1];
      Log(PreviewGenerated(a.actionId, preview));
      assert audit == old(audit) + PreviewEvents(a.actionId, preview);
      response := Previewed(preview);
    }

    method Approve(actionId: string) returns (response: Response)
      requires Valid()
      modifies this, approvals
      ensures Valid()
      ensures response == Respond(env, old(View()), ApproveRequest(actionId))
      ensures View() == Step(env, old(View()), ApproveRequest(actionId))
    {
      approvals.Approve(actionId);
      Log(ActionApproved(actionId));
      response := Ruled;
    }

    method Deny(actionId: string) returns (response: Response)
      requires Valid()
      modifies this, approvals
      ensures Valid()
      ensures response == Respond(env, old(View()), DenyRequest(actionId))
      ensures View() == Step(env, old(View()), DenyRequest(actionId))
    {
      approvals.Deny(actionId);
      Log(ActionDenied(actionId));
      response := Ruled;
    }

    method IssueToken(pathId: string, a: Action, freshId: string, now: int) returns (response: Response)
      requires Valid()
      modifies this, tokens
      ensures Valid()
      ensures response == Respond(env, old(View()), TokenRequest(pathId, a, freshId, now))
      ensures View() == Step(env, old(View()), TokenRequest(pathId, a, freshId, now))
    {
      hide Fingerprint;
      if pathId != a.actionId {
        return PathMismatch;
      }
      var token := tokens.Issue(a, TOKEN_TTL_SECONDS, freshId, now);
      Log(TokenIssued(a.actionId, token.tokenId, token.expiresAt));
      response := Issued(token.tokenId);
    }

    /** Execute, up to the point where it waits for the executor. */
    method Execute(a: Action, tokenId: string, now: int) returns (response: Response)
      requires Valid()
      modifies this, tokens
      ensures Valid()
      ensures response == Respond(env, old(View()), ExecuteRequest(a, tokenId, now))
      ensures View() == Step(env, old(View()), ExecuteRequest(a, tokenId, now))
    {
      hide Check, Fingerprint;
      if a.actionId !in previews {
        return PreviewMissing;
      }
      var preview := previews[a.actionId];
      var approval := approvals.Get(a.actionId);
      if preview.decision == DENY {
        Log(ExecutionBlocked(a.actionId, PolicyDenied));
        return Refused(PolicyDenied);
      }
      if preview.decision == REVIEW_REQUIRED && approval != Some(Approved) {
        Log(ExecutionBlocked(a.actionId, ApprovalNotGranted));
        return Refused(ApprovalNotGranted);
      }
      var verdict := tokens.ValidateForExecution(tokenId, a, now);
      if verdict != TokenValid {
        var isDrift := verdict == FingerprintMismatch || verdict == LoanAmountMismatch;
        var reason := if isDrift then FingerprintMismatch else verdict;
        Log(ValidationFailed(a.actionId, reason));
        if verdict == TargetMismatch {
          Log(TargetMismatched(a.actionId));
          Log(UnauthorizedVaultAccess(a.actionId));
        }
        Log(ExecutionBlocked(a.actionId, BadToken(reason)));
        return Refused(BadToken(reason));
      }
      Log(ExecutionAttempted(a.actionId));
      running := running + [a.actionId];
      response := Started;
    }

    /** Execute, after the executor has answered. */
    method Complete(i: nat, decision: string) returns (response: Response)
      requires Valid() && i < |running|
      modifies this
      ensures Valid()
      ensures response == Respond(env, old(View()), CompleteRequest(i, decision))
      ensures View() == Step(env, old(View()), CompleteRequest(i, decision))
    {
      Log(ExecutionCompleted(running[i], decision));
      running := running[..i] + running[i + 1..];
      response := Completed;
    }

    method Reset() returns (response: Response)
      requires Valid()
      modifies this, approvals, tokens
      ensures Valid()
      ensures response == Respond(env, old(View()), ResetRequest)
      ensures View() == Step(env, old(View()), ResetRequest)
    {
      audit := [];
      approvals.Clear();
      tokens.Clear();
      previews := map[];
      attemptCounter := map[];
      response := ResetDone;
    }
  }
}
