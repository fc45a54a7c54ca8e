/** What the action server answers after any run: to a preview, with how many attempts before it, and to an execute,
    with the reason of a refusal. */
module ActionServerAnswers {
  import opened Wrappers
  import opened CanonicalJson
  import opened TokenService
  import opened ActionServer
  import opened ActionServerRuns

  // ---------- Attempts ----------

  ghost predicate SameAttempt(a: Action, b: Action) {
    a.actorId == b.actorId && a.actionType == b.actionType && a.targetResource == b.targetResource
  }

  /** The three joined by colons, which is what attempts are counted by. */
  ghost predicate JoinsAlike(a: Action, b: Action) {
    a.actorId + ":" + a.actionType + ":" + a.targetResource == b.actorId + ":" + b.actionType + ":" + b.targetResource
  }

  /** How many previews since the last reset join like this action. */
  ghost function PreviewsLike(rs: seq<Request>, a: Action): nat {
    if rs == [] || Last(rs).ResetRequest? then 0
    else PreviewsLike(Front(rs), a) + if Last(rs).PreviewRequest? && JoinsAlike(Last(rs).action, a) then 1 else 0
  }

  /** How many of them are by the same actor, of the same type and for the same target. */
  ghost function PreviewsOf(rs: seq<Request>, a: Action): nat {
    if rs == [] || Last(rs).ResetRequest? then 0
    else PreviewsOf(Front(rs), a) + if Last(rs).PreviewRequest? && SameAttempt(Last(rs).action, a) then 1 else 0
  }

  /** Some preview since the last reset joins like this action, but is by another actor, of another type or for another
      target. */
  ghost predicate Confused(rs: seq<Request>, a: Action) {
    if rs == [] || Last(rs).ResetRequest? then false
    else
      || (Last(rs).PreviewRequest? && JoinsAlike(Last(rs).action, a) && !SameAttempt(Last(rs).action, a))
      || Confused(Front(rs), a)
  }

  lemma StepAttempts(env: Env, s: State, r: Request, a: Action)
    ensures PriorAttempts(Step(env, s, r).attempts, AttemptKey(a)) ==
      if r.ResetRequest? then 0
      else PriorAttempts(s.attempts, AttemptKey(a)) + if r.PreviewRequest? && JoinsAlike(r.action, a) then 1 else 0
  {
    hide MakePreview, ExecuteResponse, Mint, Spend, Events;
  }

  /** The number of attempts that the server has counted for an action is the number of previews that join like it. */
  lemma {:induction false} AttemptsRemembered(env: Env, rs: seq<Request>, a: Action)
    ensures PriorAttempts(Run(env, rs).attempts, AttemptKey(a)) == PreviewsLike(rs, a)
  {
    if rs != [] {
      hide Step, AttemptKey, JoinsAlike, PriorAttempts;
      RunUnfolds(env, rs);
      AttemptsRemembered(env, Front(rs), a);
      StepAttempts(env, Run(env, Front(rs)), Last(rs), a);
    } else {
      assert Run(env, rs) == INITIAL;
    }
  }

  /** The answer to a preview after any run: the policy's decision, the risk with the number of previews before that
      join like this one, and whether a human has to approve. */
  lemma PreviewAnswer(env: Env, rs: seq<Request>, a: Action)
    ensures Respond(env, Run(env, rs), PreviewRequest(a))
      == Previewed(Preview(env.decide(a), env.risk(a, PreviewsLike(rs, a)), env.decide(a) == REVIEW_REQUIRED))
  {
    hide Run, PreviewsLike, AttemptKey;
    AttemptsRemembered(env, rs, a);
  }

  lemma {:induction false} LikeAndOf(rs: seq<Request>, a: Action)
    ensures PreviewsOf(rs, a) <= PreviewsLike(rs, a)
    ensures PreviewsOf(rs, a) == PreviewsLike(rs, a) <==> !Confused(rs, a)
  {
    if rs != [] { LikeAndOf(Front(rs), a); }
  }

  /** The risk is scored with the number of previews by the same actor, of the same type and for the same target, if and
      only if no preview since the last reset is confused with this action. */
  lemma AttemptsAreOwnIff(env: Env, rs: seq<Request>, a: Action)
    ensures PriorAttempts(Run(env, rs).attempts, AttemptKey(a)) == PreviewsOf(rs, a) <==> !Confused(rs, a)
  {
    AttemptsRemembered(env, rs, a);
    LikeAndOf(rs, a);
  }

  lemma JoinUnique(a: string, rest: string, b: string, more: string)
    requires ':' !in a && ':' !in b && a + ":" + rest == b + ":" + more
    ensures a == b && rest == more
  {
    var s, t := a + ":" + rest, b + ":" + more;
    assert s[|a|] == ':' && t[|b|] == ':' && s[..|a|] == a && t[..|b|] == b;
    assert forall i :: 0 <= i < |a| ==> s[i] == a[i] != ':';
    assert forall i :: 0 <= i < |b| ==> t[i] == b[i] != ':';
    assert |a| == |b|;
    assert s[|a| + 1..] == rest && t[|b| + 1..] == more;
  }

  /** Without colons in actors and types nothing is confused. */
  lemma NoColonsNoConfusion(a: Action, b: Action)
    requires ':' !in a.actorId && ':' !in a.actionType && ':' !in b.actorId && ':' !in b.actionType
    ensures JoinsAlike(a, b) <==> SameAttempt(a, b)
  {
    var x, y := a.actionType + ":" + a.targetResource, b.actionType + ":" + b.targetResource;
    assert a.actorId + ":" + a.actionType + ":" + a.targetResource == a.actorId + ":" + x;
    assert b.actorId + ":" + b.actionType + ":" + b.targetResource == b.actorId + ":" + y;
    if JoinsAlike(a, b) {
      JoinUnique(a.actorId, x, b.actorId, y);
      JoinUnique(a.actionType, a.targetResource, b.actionType, b.targetResource);
    }
  }

  /** With them it can happen: an action that was never previewed is scored as a second attempt. */
  lemma ColonsConfuse(env: Env, a: Action, b: Action)
    requires a.actorId == "ops:bot" && a.actionType == "pay" && b.actorId == "ops" && b.actionType == "bot:pay"
    requires a.targetResource == b.targetResource
    ensures PreviewsOf([PreviewRequest(a)], b) == 0
    ensures PriorAttempts(Run(env, [PreviewRequest(a)]).attempts, AttemptKey(b)) == 1
  {
    var rs := [PreviewRequest(a)];
    assert Front(rs) == [] && Last(rs) == PreviewRequest(a);
    assert "ops:bot" + ":" + "pay" == "ops" + ":" + "bot:pay";
    assert JoinsAlike(a, b);
    assert "ops:bot"[3] == ':' && |"ops"| == 3;
    AttemptsRemembered(env, rs, b);
  }

  // ---------- Refusals ----------

  /** Which refusal an execute request gets before its token is looked at: no preview, denied by the policy, or to be
      reviewed and not approved since. */
  lemma RefusalSaysWhy(env: Env, rs: seq<Request>, a: Action, tokenId: string, now: int)
    ensures var response := Respond(env, Run(env, rs), ExecuteRequest(a, tokenId, now));
      var latest := LatestPreview(rs, a.actionId);
      && (response == PreviewMissing <==> latest.None?)
      && (response == Refused(PolicyDenied) <==> latest.Some? && env.decide(latest.value) == DENY)
      && (response == Refused(ApprovalNotGranted) <==>
            latest.Some? && env.decide(latest.value) == REVIEW_REQUIRED
            && LatestRuling(rs, a.actionId) != Some(Approved))
  {
    hide Run, Check;
    PreviewRemembered(env, rs, a.actionId);
    RulingRemembered(env, rs, a.actionId);
  }

  /** Which refusal it gets for its token, the first that applies: never issued, out of time, spent, issued for another
      action id, type, target, or another request in something else. */
  lemma TokenRefusalSaysWhy(env: Env, rs: seq<Request>, a: Action, tokenId: string, now: int)
    requires PolicyLetsThrough(env, rs, a.actionId)
    ensures var response := Respond(env, Run(env, rs), ExecuteRequest(a, tokenId, now));
      var latest := LatestIssue(rs, tokenId);
      if latest.None? then response == Refused(BadToken(TokenNotFound))
      else
        var issued := latest.value.action;
        if now > latest.value.now + 120 * 1000 then response == Refused(BadToken(TokenExpired))
        else if Spent(env, rs, tokenId) then response == Refused(BadToken(TokenAlreadyUsed))
        else if issued.actionId != a.actionId then response == Refused(BadToken(ActionIdMismatch))
        else if issued.actionType != a.actionType then response == Refused(BadToken(ActionTypeMismatch))
        else if issued.targetResource != a.targetResource then response == Refused(BadToken(TargetMismatch))
        else response == Refused(BadToken(FingerprintMismatch)) || response == Started
  {
    hide Run, Fingerprint, LoanAmount, Spent, LatestPreview, LatestRuling, LatestIssue;
    PreviewRemembered(env, rs, a.actionId);
    RulingRemembered(env, rs, a.actionId);
    TokenRemembered(env, rs, tokenId);
  }

  /** What each request adds to the audit log, which only a reset empties. */
  lemma LogGrows(env: Env, s: State, r: Request)
    ensures var after, response := Step(env, s, r).audit, Respond(env, s, r);
      match r
      case ResetRequest => after == []
      case PreviewRequest(a) =>
        response.Previewed? &&
        var p := response.preview;
        after == s.audit
          + [ActionRequested(a.actionId), PolicyEvaluated(a.actionId, p.decision), RiskScored(a.actionId, p.riskScore)]
          + (if p.decision == REVIEW_REQUIRED then [ApprovalRequested(a.actionId)] else [])
          + [PreviewGenerated(a.actionId, p)]
      case ApproveRequest(id) => after == s.audit + [ActionApproved(id)]
      case DenyRequest(id) => after == s.audit + [ActionDenied(id)]
      case TokenRequest(pathId, a, freshId, now) =>
        after == s.audit
          + if pathId == a.actionId then [TokenIssued(a.actionId, freshId, now + 120 * 1000)] else []
      case ExecuteRequest(a, tokenId, now) =>
        && (response == PreviewMissing ==> after == s.audit)
        && (response == Started ==> after == s.audit + [ExecutionAttempted(a.actionId)])
        && (response == Refused(PolicyDenied) || response == Refused(ApprovalNotGranted) ==>
              after == s.audit + [ExecutionBlocked(a.actionId, response.reason)])
        && (response.Refused? && response.reason.BadToken? ==>
              after == s.audit + [ValidationFailed(a.actionId, response.reason.verdict)]
                + (if response.reason.verdict == TargetMismatch
                   then [TargetMismatched(a.actionId), UnauthorizedVaultAccess(a.actionId)] else [])
                + [ExecutionBlocked(a.actionId, response.reason)])
      case CompleteRequest(i, outcome) =>
        after == if i < |s.running| then s.audit + [ExecutionCompleted(s.running[i], outcome)] else s.audit
  {
    hide Check, Mint, Spend, AttemptKey, PriorAttempts;
  }

  /** The loan amount of a request with distinct parameter names: the number under that name, or what its text reads
      as. */
  lemma LoanAmountIff(numeric: NumericText, a: Action, n: JsNumber)
    requires DistinctKeys(a.parameters)
    ensures LoanAmount(numeric, a) == Some(n) <==>
      exists j :: 0 <= j < |a.parameters| && a.parameters[j].key == "loanAmountRLUSD"
        && (a.parameters[j].value == Num(n)
            || (a.parameters[j].value.Str? && numeric(a.parameters[j].value.s) == Some(n)))
  {
    hide Member;
    if HasMember(a.parameters, "loanAmountRLUSD") {
      var v := Member(a.parameters, "loanAmountRLUSD");
      var j :| 0 <= j < |a.parameters| && a.parameters[j] == Field("loanAmountRLUSD", v);
    }
  }
}
