/** Execution integrity of the action server over every sequence of requests. What the server
    remembers is compared with what the history of requests says since the last reset. */
module ActionServerRuns {
  import opened Wrappers
  import opened CanonicalJson
  import opened CanonicalJsonProofs
  import opened TokenService
  import opened ActionServer

  // ---------- The history, read backwards up to the last reset ----------

  ghost function Front<T>(s: seq<T>): seq<T>
    requires s != []
  {
    s[..|s| - 1]
  }

  ghost function Last<T>(s: seq<T>): T
    requires s != []
  {
    s[|s| - 1]
  }

  /** The action of the latest preview of an action id. */
  ghost function LatestPreview(rs: seq<Request>, id: string): Option<Action> {
    if rs == [] || Last(rs).ResetRequest? then None
    else if Last(rs).PreviewRequest? && Last(rs).action.actionId == id then Some(Last(rs).action)
    else LatestPreview(Front(rs), id)
  }

  /** The latest human ruling on an action id. */
  ghost function LatestRuling(rs: seq<Request>, id: string): Option<Ruling> {
    if rs == [] || Last(rs).ResetRequest? then None
    else if Last(rs) == ApproveRequest(id) then Some(Approved)
    else if Last(rs) == DenyRequest(id) then Some(Denied)
    else LatestRuling(Front(rs), id)
  }

  datatype Issuance = Issuance(action: Action, now: int)

  ghost predicate Issues(r: Request, tokenId: string) {
    r.TokenRequest? && r.pathId == r.action.actionId && r.freshId == tokenId
  }

  /** The action a token id was issued for. */
  ghost function LatestIssue(rs: seq<Request>, tokenId: string): Option<Issuance> {
    if rs == [] || Last(rs).ResetRequest? then None
    else if Issues(Last(rs), tokenId) then Some(Issuance(Last(rs).action, Last(rs).now))
    else LatestIssue(Front(rs), tokenId)
  }

  /** Request `i` of a run is an execute that reaches the executor. */
  ghost predicate Executes(env: Env, rs: seq<Request>, i: int)
    requires 0 <= i < |rs|
  {
    rs[i].ExecuteRequest? && Respond(env, Run(env, rs[..i]), rs[i]) == Started
  }

  /** The token has reached the executor since it was issued. */
  ghost predicate Spent(env: Env, rs: seq<Request>, tokenId: string) {
    if rs == [] || Last(rs).ResetRequest? || Issues(Last(rs), tokenId) then false
    else
      || (Last(rs).ExecuteRequest? && Last(rs).tokenId == tokenId && Executes(env, rs, |rs| - 1))
      || Spent(env, Front(rs), tokenId)
  }

  // ---------- The server remembers exactly the history ----------

  /** The token record a history calls for. */
  ghost function Expected(env: Env, rs: seq<Request>, id: string): Token
    requires LatestIssue(rs, id).Some?
  {
    var issue := LatestIssue(rs, id).value;
    Mint(env.le, env.numeric, issue.action, TOKEN_TTL_SECONDS, id, issue.now).(used := Spent(env, rs, id))
  }

  lemma RunUnfolds(env: Env, rs: seq<Request>)
    requires rs != []
    ensures Run(env, rs) == Step(env, Run(env, Front(rs)), Last(rs))
  {
  }

  /** The server holds a preview of an action id exactly if the history has one, and it is the policy's
      decision on the latest. */
  lemma {:induction false} PreviewRemembered(env: Env, rs: seq<Request>, id: string)
    ensures var s := Run(env, rs);
      && (id in s.previews <==> LatestPreview(rs, id).Some?)
      && (id in s.previews ==> s.previews[id].decision == env.decide(LatestPreview(rs, id).value))
  {
    if rs != [] {
      RunUnfolds(env, rs);
      hide Step;
      PreviewRemembered(env, Front(rs), id);
      StepPreviews(env, Run(env, Front(rs)), Last(rs));
    }
  }

  lemma StepPreviews(env: Env, s: State, r: Request)
    ensures Step(env, s, r).previews ==
      match r
      case ResetRequest => map[]
      case PreviewRequest(a) => s.previews[a.actionId := MakePreview(env, s.attempts, a)]
      case _ => s.previews
  {
  }

  /** The ruling held on an action id is the latest in the history. */
  lemma {:induction false} RulingRemembered(env: Env, rs: seq<Request>, id: string)
    ensures var s := Run(env, rs);
      LatestRuling(rs, id) == if id in s.approvals then Some(s.approvals[id]) else None
  {
    if rs != [] {
      RunUnfolds(env, rs);
      RulingRemembered(env, Front(rs), id);
      StepRulings(env, Run(env, Front(rs)), Last(rs));
    }
  }

  lemma StepRulings(env: Env, s: State, r: Request)
    ensures Step(env, s, r).approvals ==
      match r
      case ResetRequest => map[]
      case ApproveRequest(id) => s.approvals[id := Approved]
      case DenyRequest(id) => s.approvals[id := Denied]
      case _ => s.approvals
  {
  }

  lemma StartedTokenIsKnown(env: Env, s: State, a: Action, tokenId: string, now: int)
    ensures ExecuteResponse(env, s, a, tokenId, now) == Started ==>
      Check(env.le, env.numeric, s.tokens, tokenId, a, now) == TokenValid && tokenId in s.tokens
  {
  }

  lemma StepTokens(env: Env, s: State, r: Request)
    ensures r.ResetRequest? ==> Step(env, s, r).tokens == map[]
    ensures r.TokenRequest? && r.pathId == r.action.actionId ==>
      Step(env, s, r).tokens
      == s.tokens[r.freshId := Mint(env.le, env.numeric, r.action, TOKEN_TTL_SECONDS, r.freshId, r.now)]
    ensures r.ExecuteRequest? && Respond(env, s, r) == Started ==>
      r.tokenId in s.tokens && Step(env, s, r).tokens == s.tokens[r.tokenId := s.tokens[r.tokenId].(used := true)]
    ensures
      && !r.ResetRequest?
      && !(r.TokenRequest? && r.pathId == r.action.actionId)
      && !(r.ExecuteRequest? && Respond(env, s, r) == Started)
      ==> Step(env, s, r).tokens == s.tokens
  {
    if r.ExecuteRequest? && Respond(env, s, r) == Started {
      StartedTokenIsKnown(env, s, r.action, r.tokenId, r.now);
    }
  }

  /** The token record held under an id is the one the history calls for. */
  lemma {:induction false} TokenRemembered(env: Env, rs: seq<Request>, id: string)
    ensures var s := Run(env, rs);
      && (id in s.tokens <==> LatestIssue(rs, id).Some?)
      && (id in s.tokens ==> s.tokens[id] == Expected(env, rs, id))
  {
    if rs != [] {
      RunUnfolds(env, rs);
      TokenRemembered(env, Front(rs), id);
      StepTokens(env, Run(env, Front(rs)), Last(rs));
      assert rs[..|rs| - 1] == Front(rs);
      assert Executes(env, rs, |rs| - 1) <==>
        Last(rs).ExecuteRequest? && Respond(env, Run(env, Front(rs)), Last(rs)) == Started;
    }
  }

  // ---------- Which requests execute ----------

  /** Equality of two requests on all seven fingerprint fields, parameters and context up to member order. */
  ghost predicate SameRequest(a: Action, b: Action) {
    && a.actionId == b.actionId
    && a.actorId == b.actorId
    && a.actionType == b.actionType
    && a.targetSystem == b.targetSystem
    && a.targetResource == b.targetResource
    && Same(Obj(a.parameters), Obj(b.parameters))
    && Same(Obj(a.context), Obj(b.context))
  }

  lemma SourceIsWellFormed(a: Action)
    requires WellFormedAction(a)
    ensures WellFormed(FingerprintSource(a))
  {
    var f := FingerprintFields(a);
    assert DistinctKeys(f);
    forall i | 0 <= i < |f| ensures WellFormed(f[i].value) {
      assert i < 5 ==> f[i].value.Str?;
      assert f[5].value == Obj(a.parameters) && f[6].value == Obj(a.context);
    }
  }

  lemma SourceKeys(a: Action, b: Action)
    ensures |FingerprintFields(a)| == 7 && DistinctKeys(FingerprintFields(a))
    ensures forall i :: 0 <= i < 7 ==> FingerprintFields(a)[i].key == FingerprintFields(b)[i].key
  {
  }

  ghost predicate FieldAgrees(a: Action, b: Action, i: int) {
    && (i == 0 ==> a.actionId == b.actionId)
    && (i == 1 ==> a.actorId == b.actorId)
    && (i == 2 ==> a.actionType == b.actionType)
    && (i == 3 ==> a.targetSystem == b.targetSystem)
    && (i == 4 ==> a.targetResource == b.targetResource)
    && (i == 5 ==> Same(Obj(a.parameters), Obj(b.parameters)))
    && (i == 6 ==> Same(Obj(a.context), Obj(b.context)))
  }

  lemma SourceFieldAgrees(a: Action, b: Action, i: int)
    requires 0 <= i < 7
    ensures Same(FingerprintFields(a)[i].value, FingerprintFields(b)[i].value) <==> FieldAgrees(a, b, i)
  {
  }

  lemma SourcesAreSame(a: Action, b: Action)
    ensures Same(FingerprintSource(a), FingerprintSource(b)) <==> SameRequest(a, b)
  {
    hide FingerprintFields, SameRequest, FieldAgrees;
    SourceKeys(a, b);
    SourceKeys(b, a);
    SameKeyByKey(FingerprintFields(a), FingerprintFields(b));
    forall i | 0 <= i < 7
      ensures Same(FingerprintFields(a)[i].value, FingerprintFields(b)[i].value) <==> FieldAgrees(a, b, i)
    {
      SourceFieldAgrees(a, b, i);
    }
    AllFieldsAgree(a, b);
  }

  lemma AllFieldsAgree(a: Action, b: Action)
    ensures SameRequest(a, b) <==> forall i :: 0 <= i < 7 ==> FieldAgrees(a, b, i)
  {
    if forall i :: 0 <= i < 7 ==> FieldAgrees(a, b, i) {
      assert FieldAgrees(a, b, 0) && FieldAgrees(a, b, 1) && FieldAgrees(a, b, 2) && FieldAgrees(a, b, 3);
      assert FieldAgrees(a, b, 4) && FieldAgrees(a, b, 5) && FieldAgrees(a, b, 6);
    }
  }

  /** The two requests are the same once the members of every object have been sorted with this comparison. */
  ghost predicate SortedAlike(le: KeyOrder, a: Action, b: Action) {
    Canon(le, FingerprintSource(a)) == Canon(le, FingerprintSource(b))
  }

  /** Under any key comparison: what a fingerprint tells, and that it never takes one request for another. */
  lemma FingerprintTellsRequest(le: KeyOrder, a: Action, b: Action)
    requires WellFormedAction(a) && WellFormedAction(b)
    ensures Fingerprint(le, a) == Fingerprint(le, b) <==> SortedAlike(le, a, b)
    ensures Fingerprint(le, a) == Fingerprint(le, b) ==> SameRequest(a, b)
  {
    hide Canon, Stringify, Same, SameRequest, FingerprintSource;
    SourceIsWellFormed(a);
    SourceIsWellFormed(b);
    SourcesAreSame(a, b);
    TextTellsCanon(le, FingerprintSource(a), FingerprintSource(b));
    if SortedAlike(le, a, b) {
      EqualTextMeansSame(le, FingerprintSource(a), FingerprintSource(b));
    }
  }

  /** Under a comparison that separates keys, a fingerprint identifies a request. */
  lemma FingerprintIdentifiesRequest(le: KeyOrder, a: Action, b: Action)
    requires TotalPreorder(le) && Separates(le) && WellFormedAction(a) && WellFormedAction(b)
    ensures Fingerprint(le, a) == Fingerprint(le, b) <==> SameRequest(a, b)
  {
    SourceIsWellFormed(a);
    SourceIsWellFormed(b);
    SourcesAreSame(a, b);
    StringifyIsCanonical(le, FingerprintSource(a), FingerprintSource(b));
  }

  ghost predicate WellTyped(rs: seq<Request>) {
    forall i :: 0 <= i < |rs| ==>
      && (rs[i].TokenRequest? ==> WellFormedAction(rs[i].action))
      && (rs[i].ExecuteRequest? ==> WellFormedAction(rs[i].action))
  }

  ghost predicate SoundEnv(env: Env) {
    TotalPreorder(env.le) && Separates(env.le)
  }

  /** Policy and human approval, as the history has them, let the action id through. */
  ghost predicate PolicyLetsThrough(env: Env, rs: seq<Request>, actionId: string) {
    && LatestPreview(rs, actionId).Some?
    && var decision := env.decide(LatestPreview(rs, actionId).value);
    && decision != DENY
    && (decision == REVIEW_REQUIRED ==> LatestRuling(rs, actionId) == Some(Approved))
  }

  /** The token was issued, since the last reset, for this very request; it is in time and not spent,
      and its loan amount, if it has one, equals that of the request as numbers do. */
  ghost predicate TokenCovers(env: Env, rs: seq<Request>, a: Action, tokenId: string, now: int) {
    && LatestIssue(rs, tokenId).Some?
    && var issue := LatestIssue(rs, tokenId).value;
    && SameRequest(issue.action, a)
    && now <= issue.now + 120 * 1000
    && !Spent(env, rs, tokenId)
    && LoanAgrees(env, issue.action, a)
  }

  ghost predicate LoanAgrees(env: Env, issued: Action, a: Action) {
    || LoanAmount(env.numeric, issued) == None
    || StrictEquals(LoanAmount(env.numeric, issued), LoanAmount(env.numeric, a))
  }

  lemma {:induction false} IssuedActionIsWellFormed(rs: seq<Request>, tokenId: string)
    requires WellTyped(rs) && LatestIssue(rs, tokenId).Some?
    ensures WellFormedAction(LatestIssue(rs, tokenId).value.action)
  {
    if !Issues(Last(rs), tokenId) {
      IssuedActionIsWellFormed(Front(rs), tokenId);
    }
  }

  lemma MintedTokenChecks(env: Env, issued: Action, issuedAt: int, id: string, spent: bool, a: Action, now: int)
    ensures var token := Mint(env.le, env.numeric, issued, TOKEN_TTL_SECONDS, id, issuedAt).(used := spent);
      CheckToken(env.le, env.numeric, token, a, now) == TokenValid
      <==> && now <= issuedAt + TOKEN_TTL_SECONDS * 1000
           && !spent
           && issued.actionId == a.actionId && issued.actionType == a.actionType
           && issued.targetResource == a.targetResource
           && LoanAgrees(env, issued, a)
           && Fingerprint(env.le, issued) == Fingerprint(env.le, a)
  {
  }

  /** The request the token was issued for and this one, as the comparison sorts them. */
  ghost predicate IssuedAlike(env: Env, rs: seq<Request>, a: Action, tokenId: string) {
    LatestIssue(rs, tokenId).Some? && SortedAlike(env.le, LatestIssue(rs, tokenId).value.action, a)
  }

  lemma TokenCheckMeansCovered(env: Env, rs: seq<Request>, a: Action, tokenId: string, now: int)
    requires WellTyped(rs) && WellFormedAction(a)
    ensures Check(env.le, env.numeric, Run(env, rs).tokens, tokenId, a, now) == TokenValid
       <==> TokenCovers(env, rs, a, tokenId, now) && IssuedAlike(env, rs, a, tokenId)
  {
    hide SortedAlike, Fingerprint;
    TokenRemembered(env, rs, tokenId);
    var tokens := Run(env, rs).tokens;
    if tokenId in tokens {
      var issue := LatestIssue(rs, tokenId).value;
      IssuedActionIsWellFormed(rs, tokenId);
      FingerprintTellsRequest(env.le, issue.action, a);
      MintedTokenChecks(env, issue.action, issue.now, tokenId, Spent(env, rs, tokenId), a, now);
    }
  }

  lemma PolicyGateMeansLetThrough(env: Env, rs: seq<Request>, a: Action, tokenId: string, now: int)
    ensures var s := Run(env, rs);
      ExecuteResponse(env, s, a, tokenId, now) == Started
      <==> PolicyLetsThrough(env, rs, a.actionId) && Check(env.le, env.numeric, s.tokens, tokenId, a, now) == TokenValid
  {
    PreviewRemembered(env, rs, a.actionId);
    RulingRemembered(env, rs, a.actionId);
  }

  /** After any run and under any key comparison: an execute request reaches the executor if and only if the
      history lets its action id through, its token covers it, and the comparison sorts it as it sorted the
      request the token was issued for. */
  lemma ExecutesExactly(env: Env, rs: seq<Request>, a: Action, tokenId: string, now: int)
    requires WellTyped(rs) && WellFormedAction(a)
    ensures Respond(env, Run(env, rs), ExecuteRequest(a, tokenId, now)) == Started
       <==> && PolicyLetsThrough(env, rs, a.actionId)
            && TokenCovers(env, rs, a, tokenId, now) && IssuedAlike(env, rs, a, tokenId)
  {
    hide PolicyLetsThrough, TokenCovers, IssuedAlike, ExecuteResponse, Check;
    TokenCheckMeansCovered(env, rs, a, tokenId, now);
    PolicyGateMeansLetThrough(env, rs, a, tokenId, now);
  }

  /** If the comparison separates keys, the last condition says nothing more than the one before it. */
  lemma ExecutesIffAuthorized(env: Env, rs: seq<Request>, a: Action, tokenId: string, now: int)
    requires SoundEnv(env) && WellTyped(rs) && WellFormedAction(a)
    ensures Respond(env, Run(env, rs), ExecuteRequest(a, tokenId, now)) == Started
       <==> PolicyLetsThrough(env, rs, a.actionId) && TokenCovers(env, rs, a, tokenId, now)
  {
    hide PolicyLetsThrough, Respond, SortedAlike, Fingerprint, SameRequest, Spent, LoanAgrees;
    ExecutesExactly(env, rs, a, tokenId, now);
    if TokenCovers(env, rs, a, tokenId, now) {
      var issued := LatestIssue(rs, tokenId).value.action;
      IssuedActionIsWellFormed(rs, tokenId);
      FingerprintIdentifiesRequest(env.le, issued, a);
      FingerprintTellsRequest(env.le, issued, a);
    }
  }

  /** The issued request itself passes, in time and before it is spent, exactly if its loan amount is
      absent or a number: Number() of other text is NaN, which never equals itself. */
  lemma IssuedRequestPassesIffLoanIsComparable(env: Env, rs: seq<Request>, tokenId: string, now: int)
    requires LatestIssue(rs, tokenId).Some?
    requires !Spent(env, rs, tokenId) && now <= LatestIssue(rs, tokenId).value.now + TOKEN_TTL_SECONDS * 1000
    ensures var issued := LatestIssue(rs, tokenId).value.action;
      Check(env.le, env.numeric, Run(env, rs).tokens, tokenId, issued, now) == TokenValid
      <==> LoanAmount(env.numeric, issued) != Some(NaN)
  {
    TokenRemembered(env, rs, tokenId);
  }

  // ---------- At most once ----------

  /** randomUUID never returns the same id twice. */
  ghost predicate FreshTokenIds(rs: seq<Request>) {
    forall i, j :: 0 <= i < j < |rs| && rs[i].TokenRequest? && rs[j].TokenRequest? ==> rs[i].freshId != rs[j].freshId
  }

  lemma {:induction false} IssueHasRequest(rs: seq<Request>, tokenId: string) returns (k: int)
    requires LatestIssue(rs, tokenId).Some?
    ensures 0 <= k < |rs| && Issues(rs[k], tokenId)
  {
    if Issues(Last(rs), tokenId) {
      k := |rs| - 1;
    } else {
      k := IssueHasRequest(Front(rs), tokenId);
    }
  }

  lemma ExecutesOnPrefix(env: Env, rs: seq<Request>, i: int, n: int)
    requires 0 <= i < n <= |rs|
    ensures Executes(env, rs[..n], i) <==> Executes(env, rs, i)
  {
    assert rs[..n][..i] == rs[..i] && rs[..n][i] == rs[i];
  }

  ghost predicate SpentOrForgotten(env: Env, rs: seq<Request>, tokenId: string) {
    LatestIssue(rs, tokenId) == None || Spent(env, rs, tokenId)
  }

  lemma SpendingSpends(env: Env, rs: seq<Request>, i: int)
    requires 0 <= i < |rs|
    ensures Executes(env, rs, i) ==> SpentOrForgotten(env, rs[..i + 1], rs[i].tokenId)
  {
    ExecutesOnPrefix(env, rs, i, i + 1);
    assert Last(rs[..i + 1]) == rs[i];
  }

  lemma SpentPersists(env: Env, rs: seq<Request>, tokenId: string)
    requires rs != [] && !Issues(Last(rs), tokenId) && SpentOrForgotten(env, Front(rs), tokenId)
    ensures SpentOrForgotten(env, rs, tokenId)
  {
  }

  /** A token known when request `i` runs is not issued again later. */
  lemma NotIssuedAgain(rs: seq<Request>, tokenId: string, i: int, j: int)
    requires FreshTokenIds(rs) && 0 <= i <= j < |rs| && LatestIssue(rs[..i], tokenId).Some?
    ensures !Issues(rs[j], tokenId)
  {
    var k := IssueHasRequest(rs[..i], tokenId);
    assert Issues(rs[k], tokenId) && k < j;
  }

  /** Once spent, a token stays spent or forgotten for ever. */
  lemma {:induction false} StaysSpent(env: Env, rs: seq<Request>, later: seq<Request>, tokenId: string)
    requires SpentOrForgotten(env, rs, tokenId)
    requires forall j :: 0 <= j < |later| ==> !Issues(later[j], tokenId)
    ensures SpentOrForgotten(env, rs + later, tokenId)
    decreases |later|
  {
    if later == [] {
      assert rs + later == rs;
    } else {
      StaysSpent(env, rs, Front(later), tokenId);
      assert Front(rs + later) == rs + Front(later) && Last(rs + later) == Last(later);
      SpentPersists(env, rs + later, tokenId);
    }
  }

  lemma ExecutedTokenIsLive(env: Env, rs: seq<Request>, i: int)
    requires 0 <= i < |rs|
    ensures Executes(env, rs, i) ==> LatestIssue(rs[..i], rs[i].tokenId).Some? && !Spent(env, rs[..i], rs[i].tokenId)
  {
    if Executes(env, rs, i) {
      TokenRemembered(env, rs[..i], rs[i].tokenId);
      StartedTokenIsKnown(env, Run(env, rs[..i]), rs[i].action, rs[i].tokenId, rs[i].now);
    }
  }

  lemma SpentLater(env: Env, rs: seq<Request>, i: int, j: int)
    requires FreshTokenIds(rs) && 0 <= i < j < |rs| && rs[i].ExecuteRequest?
    ensures Executes(env, rs, i) ==> SpentOrForgotten(env, rs[..j], rs[i].tokenId)
  {
    hide *;
    if Executes(env, rs, i) {
      var later := rs[i + 1..j];
      ExecutedTokenIsLive(env, rs, i);
      SpendingSpends(env, rs, i);
      forall k | 0 <= k < |later| ensures !Issues(later[k], rs[i].tokenId) {
        NotIssuedAgain(rs, rs[i].tokenId, i, i + 1 + k);
      }
      StaysSpent(env, rs[..i + 1], later, rs[i].tokenId);
      assert rs[..j] == rs[..i + 1] + later;
    }
  }

  /** No token reaches the executor twice in any run, resets included. */
  lemma TokenExecutesAtMostOnce(env: Env, rs: seq<Request>, i: int, j: int)
    requires FreshTokenIds(rs) && 0 <= i < j < |rs|
    ensures Executes(env, rs, i) && Executes(env, rs, j) ==> rs[i].tokenId != rs[j].tokenId
  {
    if Executes(env, rs, i) && Executes(env, rs, j) {
      SpentLater(env, rs, i, j);
      ExecutedTokenIsLive(env, rs, j);
    }
  }

  /** Execution integrity, under any key comparison: whatever was executed in the middle of a run was let
      through and covered by its token, read off the requests before it. */
  lemma ExecutionIntegrity(env: Env, rs: seq<Request>, i: int)
    requires WellTyped(rs) && 0 <= i < |rs|
    ensures Executes(env, rs, i) ==>
      && PolicyLetsThrough(env, rs[..i], rs[i].action.actionId)
      && TokenCovers(env, rs[..i], rs[i].action, rs[i].tokenId, rs[i].now)
  {
    hide PolicyLetsThrough, TokenCovers, IssuedAlike, Respond;
    if Executes(env, rs, i) {
      ExecutesExactly(env, rs[..i], rs[i].action, rs[i].tokenId, rs[i].now);
    }
  }

  // ---------- The previewed and the executed action ----------

  lemma SameRequestIsEquivalence(a: Action, b: Action, c: Action)
    requires WellFormedAction(a) && WellFormedAction(b) && WellFormedAction(c)
    ensures SameRequest(a, b) <==> SameRequest(b, a)
    ensures SameRequest(a, b) && SameRequest(b, c) ==> SameRequest(a, c)
  {
    hide Same, WellFormed;
    SameIsEquivalence(Obj(a.parameters), Obj(b.parameters), Obj(c.parameters));
    SameIsEquivalence(Obj(a.context), Obj(b.context), Obj(c.context));
  }

  /** What was executed is what was previewed exactly if the token was issued for what was previewed. */
  lemma ExecutedIsPreviewedIff(env: Env, rs: seq<Request>, i: int, previewed: Action)
    requires WellTyped(rs) && 0 <= i < |rs| && WellFormedAction(previewed)
    ensures Executes(env, rs, i) && LatestPreview(rs[..i], rs[i].action.actionId) == Some(previewed) ==>
      && LatestIssue(rs[..i], rs[i].tokenId).Some?
      && (SameRequest(rs[i].action, previewed)
          <==> SameRequest(LatestIssue(rs[..i], rs[i].tokenId).value.action, previewed))
  {
    if Executes(env, rs, i) {
      ExecutionIntegrity(env, rs, i);
      hide Executes, SameRequest, Spent, LoanAgrees, PolicyLetsThrough, WellFormedAction;
      var issued := LatestIssue(rs[..i], rs[i].tokenId).value.action;
      IssuedActionIsWellFormed(rs[..i], rs[i].tokenId);
      SameRequestIsEquivalence(issued, rs[i].action, previewed);
      SameRequestIsEquivalence(rs[i].action, issued, previewed);
    }
  }

  /** They can differ: previews are kept by action id alone. A preview that is allowed lets any other request
      under its id through, denied ones included, once a token has been issued for that request. */
  lemma PreviewedAndExecutedCanDiffer(env: Env, a: Action, b: Action, freshId: string, now: int)
    requires a.actionId == b.actionId && env.decide(a) != DENY && env.decide(a) != REVIEW_REQUIRED
    requires LoanAmount(env.numeric, b) != Some(NaN)
    ensures var rs := [PreviewRequest(a), TokenRequest(b.actionId, b, freshId, now)];
      Respond(env, Run(env, rs), ExecuteRequest(b, freshId, now)) == Started
  {
    var first := [PreviewRequest(a)];
    var rs := first + [TokenRequest(b.actionId, b, freshId, now)];
    assert rs == [PreviewRequest(a), TokenRequest(b.actionId, b, freshId, now)];
    hide Run, Fingerprint, LoanAmount, Respond, Check;
    assert Front(rs) == first && Last(rs) == TokenRequest(b.actionId, b, freshId, now);
    assert Front(first) == [] && Last(first) == PreviewRequest(a);
    assert Issues(Last(rs), freshId);
    assert LatestIssue(rs, freshId) == Some(Issuance(b, now)) && !Spent(env, rs, freshId);
    assert LatestPreview(rs, b.actionId) == LatestPreview(first, b.actionId) == Some(a);
    IssuedRequestPassesIffLoanIsComparable(env, rs, freshId, now);
    PolicyGateMeansLetThrough(env, rs, b, freshId, now);
    ExecuteIsExecute(env, Run(env, rs), b, freshId, now);
  }

  lemma ExecuteIsExecute(env: Env, s: State, a: Action, tokenId: string, now: int)
    ensures Respond(env, s, ExecuteRequest(a, tokenId, now)) == ExecuteResponse(env, s, a, tokenId, now)
  {
  }

  // ---------- The audit trail agrees ----------

  /** The execution_attempted entries of an audit log. */
  ghost function Attempts(audit: seq<AuditEvent>): nat {
    if audit == [] then 0 else Attempts(Front(audit)) + (if Last(audit).ExecutionAttempted? then 1 else 0)
  }

  lemma {:induction false} AttemptsAppend(a: seq<AuditEvent>, b: seq<AuditEvent>)
    ensures Attempts(a + b) == Attempts(a) + Attempts(b)
  {
    if b == [] {
      assert a + b == a;
    } else {
      assert Front(a + b) == a + Front(b) && Last(a + b) == Last(b);
      AttemptsAppend(a, Front(b));
    }
  }

  ghost function Executions(env: Env, rs: seq<Request>): nat {
    if rs == [] then 0
    else Executions(env, Front(rs)) + (if Executes(env, rs, |rs| - 1) then 1 else 0)
  }

  ghost function ExecutionsSinceReset(env: Env, rs: seq<Request>): nat {
    if rs == [] || Last(rs).ResetRequest? then 0
    else ExecutionsSinceReset(env, Front(rs)) + (if Executes(env, rs, |rs| - 1) then 1 else 0)
  }

  /** A completion that answers an execution still waiting for its executor. */
  ghost function Completions(env: Env, rs: seq<Request>): nat {
    if rs == [] then 0
    else
      Completions(env, Front(rs))
      + (if Last(rs).CompleteRequest? && Last(rs).index < |Run(env, Front(rs)).running| then 1 else 0)
  }

  lemma EffectKeepsAudit(env: Env, s: State, r: Request)
    requires !r.ResetRequest?
    ensures Effect(env, s, r).audit == s.audit
  {
  }

  lemma {:induction false} NoAttempts(audit: seq<AuditEvent>)
    requires forall i :: 0 <= i < |audit| ==> !audit[i].ExecutionAttempted?
    ensures Attempts(audit) == 0
  {
    if audit != [] {
      NoAttempts(Front(audit));
    }
  }

  lemma EventsAttempt(env: Env, s: State, r: Request)
    ensures Attempts(Events(env, s, r)) == if r.ExecuteRequest? && Respond(env, s, r) == Started then 1 else 0
  {
    var added := Events(env, s, r);
    if r.ExecuteRequest? && Respond(env, s, r) == Started {
      assert added == [ExecutionAttempted(r.action.actionId)];
      assert Front(added) == [];
    } else {
      NoAttempts(added);
    }
  }

  lemma StepLogsAttempts(env: Env, s: State, r: Request)
    requires !r.ResetRequest?
    ensures Attempts(Step(env, s, r).audit) == Attempts(s.audit)
         + (if r.ExecuteRequest? && Respond(env, s, r) == Started then 1 else 0)
  {
    hide Effect, Events, Respond;
    EffectKeepsAudit(env, s, r);
    AttemptsAppend(s.audit, Events(env, s, r));
    EventsAttempt(env, s, r);
  }

  /** The audit log shows one execution_attempted for every execution since the last reset. */
  lemma {:induction false} AuditShowsExecutions(env: Env, rs: seq<Request>)
    ensures Attempts(Run(env, rs).audit) == ExecutionsSinceReset(env, rs)
  {
    if rs != [] {
      RunUnfolds(env, rs);
      if !Last(rs).ResetRequest? {
        AuditShowsExecutions(env, Front(rs));
        StepLogsAttempts(env, Run(env, Front(rs)), Last(rs));
        LastExecutes(env, rs);
      }
    }
  }

  lemma LastExecutes(env: Env, rs: seq<Request>)
    requires rs != []
    ensures Executes(env, rs, |rs| - 1)
       <==> Last(rs).ExecuteRequest? && Respond(env, Run(env, Front(rs)), Last(rs)) == Started
  {
  }

  lemma StepRunning(env: Env, s: State, r: Request)
    ensures |Step(env, s, r).running| == |s.running|
         + (if r.ExecuteRequest? && Respond(env, s, r) == Started then 1 else 0)
         - (if r.CompleteRequest? && r.index < |s.running| then 1 else 0)
  {
  }

  /** Every execution of the whole run has been completed or is still with its executor. */
  lemma {:induction false} ExecutionsAreConserved(env: Env, rs: seq<Request>)
    ensures Executions(env, rs) == Completions(env, rs) + |Run(env, rs).running|
  {
    if rs != [] {
      RunUnfolds(env, rs);
      ExecutionsAreConserved(env, Front(rs));
      StepRunning(env, Run(env, Front(rs)), Last(rs));
      LastExecutes(env, rs);
    }
  }
}
