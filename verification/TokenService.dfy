/** Requests, their fingerprint, and the two stores of the action server that gate execution:
    the one-shot execution tokens and the human approvals. */
module TokenService {
  import opened Wrappers
  import opened CanonicalJson

  datatype Action = Action(
    actionId: string,
    actorId: string,
    actionType: string,
    targetSystem: string,
    targetResource: string,
    parameters: seq<Field>,
    context: seq<Field>)

  /** SHA-256 taken as ideal: a digest is as good as the text it was made from. */
  datatype Digest = Sha256(text: string)

  /** What `Number(s)` gives for a string that is not blank, and nothing for a blank one. */
  type NumericText = string -> Option<JsNumber>

  predicate WellFormedAction(a: Action) {
    WellFormed(Obj(a.parameters)) && WellFormed(Obj(a.context))
  }

  function FingerprintFields(a: Action): seq<Field> {
    [
      Field("action_id", Str(a.actionId)),
      Field("actor_id", Str(a.actorId)),
      Field("action_type", Str(a.actionType)),
      Field("target_system", Str(a.targetSystem)),
      Field("target_resource", Str(a.targetResource)),
      Field("parameters", Obj(a.parameters)),
      Field("context", Obj(a.context))]
  }

  function FingerprintSource(a: Action): Json {
    Obj(FingerprintFields(a))
  }

  function Fingerprint(le: KeyOrder, a: Action): Digest {
    Sha256(Stringify(le, FingerprintSource(a)))
  }

  function NumberValue(numeric: NumericText, fields: seq<Field>, key: string): Option<JsNumber> {
    if !HasMember(fields, key) then None
    else
      match Member(fields, key)
      case Num(n) => Some(n)
      case Str(s) => numeric(s)
      case _ => None
  }

  function LoanAmount(numeric: NumericText, a: Action): Option<JsNumber> {
    NumberValue(numeric, a.parameters, "loanAmountRLUSD")
  }

  /** `===`: NaN differs from everything, itself included. */
  predicate StrictEquals(a: Option<JsNumber>, b: Option<JsNumber>) {
    a == b && a != Some(NaN)
  }

  datatype Token = Token(
    tokenId: string,
    actionId: string,
    allowedActionType: string,
    allowedTarget: string,
    expiresAt: int,
    fingerprint: Digest,
    loanAmount: Option<JsNumber>,
    used: bool)

  datatype Verdict =
    | TokenValid
    | TokenNotFound
    | TokenExpired
    | TokenAlreadyUsed
    | ActionIdMismatch
    | ActionTypeMismatch
    | TargetMismatch
    | LoanAmountMismatch
    | FingerprintMismatch

  /** The token that `issue` stores; times are in milliseconds. */
  function Mint(le: KeyOrder, numeric: NumericText, a: Action, ttlSeconds: int, id: string, now: int): Token {
    Token(id, a.actionId, a.actionType, a.targetResource, now + ttlSeconds * 1000,
          Fingerprint(le, a), LoanAmount(numeric, a), false)
  }

  /** The checks `validateForExecution` makes on a token it has found, in their order. */
  function CheckToken(le: KeyOrder, numeric: NumericText, t: Token, a: Action, now: int): Verdict {
    if t.expiresAt < now then TokenExpired
    else if t.used then TokenAlreadyUsed
    else if t.actionId != a.actionId then ActionIdMismatch
    else if t.allowedActionType != a.actionType then ActionTypeMismatch
    else if t.allowedTarget != a.targetResource then TargetMismatch
    else if t.loanAmount != None && !StrictEquals(t.loanAmount, LoanAmount(numeric, a)) then LoanAmountMismatch
    else if t.fingerprint != Fingerprint(le, a) then FingerprintMismatch
    else TokenValid
  }

  function Check(le: KeyOrder, numeric: NumericText, tokens: map<string, Token>, id: string, a: Action,
                 now: int): Verdict
  {
    if id !in tokens then TokenNotFound else CheckToken(le, numeric, tokens[id], a, now)
  }

  function Spend(tokens: map<string, Token>, id: string): map<string, Token>
    requires id in tokens
  {
    tokens[id := tokens[id].(used := true)]
  }

  class TokenStore {
    const le: KeyOrder
    const numeric: NumericText
    var tokens: map<string, Token>

    constructor (le: KeyOrder, numeric: NumericText)
      ensures this.le == le && this.numeric == numeric && tokens == map[]
    {
      this.le := le;
      this.numeric := numeric;
      tokens := map[];
    }

    /** `freshId` is what randomUUID returns. */
    method Issue(a: Action, ttlSeconds: int, freshId: string, now: int) returns (token: Token)
      modifies this
      ensures token == Mint(le, numeric, a, ttlSeconds, freshId, now)
      ensures tokens == old(tokens)[freshId := token]
    {
      token := Token(freshId, a.actionId, a.actionType, a.targetResource, now + ttlSeconds * 1000,
                     Fingerprint(le, a), LoanAmount(numeric, a), false);
      tokens := tokens[freshId := token];
    }

    method ValidateForExecution(tokenId: string, a: Action, now: int) returns (verdict: Verdict)
      modifies this
      ensures verdict == Check(le, numeric, old(tokens), tokenId, a, now)
      ensures tokens == if verdict.TokenValid? then Spend(old(tokens), tokenId) else old(tokens)
    {
      if tokenId !in tokens {
        return TokenNotFound;
      }
      var token := tokens[tokenId];
      if token.expiresAt < now {
        return TokenExpired;
      }
      if token.used {
        return TokenAlreadyUsed;
      }
      if token.actionId != a.actionId {
        return ActionIdMismatch;
      }
      if token.allowedActionType != a.actionType {
        return ActionTypeMismatch;
      }
      if token.allowedTarget != a.targetResource {
        return TargetMismatch;
      }
      if token.loanAmount != None && !StrictEquals(token.loanAmount, LoanAmount(numeric, a)) {
        return LoanAmountMismatch;
      }
      if token.fingerprint != Fingerprint(le, a) {
        return FingerprintMismatch;
      }
      tokens := tokens[tokenId := token.(used := true)];
      return TokenValid;
    }

    method Clear()
      modifies this
      ensures tokens == map[]
    {
      tokens := map[];
    }
  }

  datatype Ruling = Approved | Denied

  class ApprovalStore {
    var decisions: map<string, Ruling>

    constructor ()
      ensures decisions == map[]
    {
      decisions := map[];
    }

    method Approve(actionId: string)
      modifies this
      ensures decisions == old(decisions)[actionId := Approved]
    {
      decisions := decisions[actionId := Approved];
    }

    method Deny(actionId: string)
      modifies this
      ensures decisions == old(decisions)[actionId := Denied]
    {
      decisions := decisions[actionId := Denied];
    }

    method Get(actionId: string) returns (r: Option<Ruling>)
      ensures r == if actionId in decisions then Some(decisions[actionId]) else None
    {
      if actionId in decisions {
        return Some(decisions[actionId]);
      }
      return None;
    }

    method Clear()
      modifies this
      ensures decisions == map[]
    {
      decisions := map[];
    }
  }
}
