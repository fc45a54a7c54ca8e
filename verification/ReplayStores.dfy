/** Replay-protected execution: the token engine, the replay registers and the execution gateway, over one
    cache or two. The three places that remember an execution always agree. */
module ReplayStores {
  import opened Wrappers

  datatype CachedToken = CachedToken(tokenId: string, nonce: string, expiresAt: int, invalidated: bool)

  datatype Entry = TokenEntry(token: CachedToken) | TimeEntry(time: int)

  class InMemoryRuntimeCache {
    var store: map<string, Entry>

    constructor ()
      ensures store == map[]
    {
      store := map[];
    }

    method Lookup(key: string) returns (r: Option<Entry>)
      ensures r == if key in store then Some(store[key]) else None
    {
      r := if key in store then Some(store[key]) else None;
    }

    method Put(key: string, value: Entry)
      modifies this
      ensures store == old(store)[key := value]
    {
      store := store[key := value];
    }

    method Exists(key: string) returns (b: bool)
      ensures b == (key in store)
    {
      b := key in store;
    }
  }

  // ---------- Keys ----------

  function TokenKey(id: string): string { "token:" + id }

  function UsedKey(id: string): string { "token_used:" + id }

  function NonceKey(nonce: string): string { "nonce:" + nonce }

  lemma SamePrefixSameRest(prefix: string, a: string, b: string)
    requires prefix + a == prefix + b
    ensures a == b
  {
    assert a == (prefix + a)[|prefix|..] == (prefix + b)[|prefix|..] == b;
  }

  /** The three key spaces are disjoint, so sharing one cache mixes nothing up. */
  lemma KeysNeverCollide(a: string, b: string)
    ensures TokenKey(a) != UsedKey(b) && TokenKey(a) != NonceKey(b) && UsedKey(a) != NonceKey(b)
    ensures TokenKey(a) == TokenKey(b) <==> a == b
    ensures UsedKey(a) == UsedKey(b) <==> a == b
    ensures NonceKey(a) == NonceKey(b) <==> a == b
  {
    assert TokenKey(a)[5] == ':' && UsedKey(b)[5] == '_' && NonceKey(b)[0] == 'n';
    assert UsedKey(a)[0] == 't';
    if TokenKey(a) == TokenKey(b) {
      SamePrefixSameRest("token:", a, b);
    }
    if UsedKey(a) == UsedKey(b) {
      SamePrefixSameRest("token_used:", a, b);
    }
    if NonceKey(a) == NonceKey(b) {
      SamePrefixSameRest("nonce:", a, b);
    }
  }

  // ---------- The stores as values ----------

  /** The engine's cache and the replay registers' cache, which may be one. */
  datatype Stores = Stores(shared: bool, engine: map<string, Entry>, replay: map<string, Entry>)

  predicate Coherent(s: Stores) {
    s.shared ==> s.engine == s.replay
  }

  function PutEngine(s: Stores, key: string, e: Entry): Stores {
    s.(engine := s.engine[key := e], replay := if s.shared then s.replay[key := e] else s.replay)
  }

  function PutReplay(s: Stores, key: string, e: Entry): Stores {
    s.(replay := s.replay[key := e], engine := if s.shared then s.engine[key := e] else s.engine)
  }

  function TokenOf(engine: map<string, Entry>, id: string): Option<CachedToken> {
    if TokenKey(id) in engine && engine[TokenKey(id)].TokenEntry? then Some(engine[TokenKey(id)].token) else None
  }

  datatype Outcome =
    | TokenNotFound
    | TokenInvalidated
    | TokenExpired
    | DuplicateNonce
    | UsageRegistered
    | Approved(nonce: string)

  /** `validate_token`: what stops a token, if anything. */
  function Validate(engine: map<string, Entry>, id: string, now: int): Outcome {
    var t := TokenOf(engine, id);
    if t.None? then TokenNotFound
    else if t.value.invalidated then TokenInvalidated
    else if t.value.expiresAt <= now then TokenExpired
    else Approved(t.value.nonce)
  }

  /** The checks of `execute` in their order. */
  function ExecuteOutcome(s: Stores, id: string, now: int): Outcome {
    var v := Validate(s.engine, id, now);
    if !v.Approved? then v
    else if NonceKey(v.nonce) in s.replay then DuplicateNonce
    else if UsedKey(id) in s.replay then UsageRegistered
    else v
  }

  function Invalidate(s: Stores, id: string): Stores {
    var t := TokenOf(s.engine, id);
    if t.None? then s else PutEngine(s, TokenKey(id), TokenEntry(t.value.(invalidated := true)))
  }

  function AfterExecute(s: Stores, id: string, now: int): Stores {
    var o := ExecuteOutcome(s, id, now);
    if !o.Approved? then s
    else Invalidate(PutReplay(PutReplay(s, NonceKey(o.nonce), TimeEntry(now)), UsedKey(id), TimeEntry(now)), id)
  }

  function NewToken(ttlSeconds: int, nonce: Option<string>, freshId: string, freshNonce: string, now: int): CachedToken
  {
    CachedToken(freshId, if nonce.Some? && nonce.value != "" then nonce.value else freshNonce, now + ttlSeconds, false)
  }

  datatype Event =
    | Issue(nonce: Option<string>, freshId: string, freshNonce: string, now: int)
    | Execute(id: string, now: int)

  function Step(ttlSeconds: int, s: Stores, e: Event): Stores {
    match e
    case Issue(nonce, freshId, freshNonce, now) =>
      PutEngine(s, TokenKey(freshId), TokenEntry(NewToken(ttlSeconds, nonce, freshId, freshNonce, now)))
    case Execute(id, now) => AfterExecute(s, id, now)
  }

  function Run(shared: bool, ttlSeconds: int, events: seq<Event>): Stores {
    if events == [] then Stores(shared, map[], map[])
    else Step(ttlSeconds, Run(shared, ttlSeconds, events[..|events| - 1]), events[|events| - 1])
  }

  // ---------- The objects ----------

  class TransientActionTokenEngine {
    const cache: InMemoryRuntimeCache
    const ttlSeconds: int

    constructor (cache: InMemoryRuntimeCache, ttlSeconds: int)
      ensures this.cache == cache && this.ttlSeconds == ttlSeconds
    {
      this.cache := cache;
      this.ttlSeconds := ttlSeconds;
    }

    method IssueToken(nonce: Option<string>, freshId: string, freshNonce: string, now: int) returns (t: CachedToken)
      modifies cache
      ensures t == NewToken(ttlSeconds, nonce, freshId, freshNonce, now)
      ensures cache.store == old(cache.store)[TokenKey(freshId) := TokenEntry(t)]
    {
      var chosen := if nonce.Some? && nonce.value != "" then nonce.value else freshNonce;
      t := CachedToken(freshId, chosen, now + ttlSeconds, false);
      cache.Put(TokenKey(freshId), TokenEntry(t));
    }

    method ValidateToken(id: string, now: int) returns (o: Outcome)
      ensures o == Validate(cache.store, id, now)
    {
      var e := cache.Lookup(TokenKey(id));
      if e.None? || !e.value.TokenEntry? {
        return TokenNotFound;
      }
      var token := e.value.token;
      if token.invalidated {
        return TokenInvalidated;
      }
      if token.expiresAt <= now {
        return TokenExpired;
      }
      o := Approved(token.nonce);
    }

    method InvalidateToken(id: string)
      modifies cache
      ensures var t := TokenOf(old(cache.store), id);
        cache.store == if t.None? then old(cache.store)
                       else old(cache.store)[TokenKey(id) := TokenEntry(t.value.(invalidated := true))]
    {
      var e := cache.Lookup(TokenKey(id));
      if e.Some? && e.value.TokenEntry? {
        cache.Put(TokenKey(id), TokenEntry(e.value.token.(invalidated := true)));
      }
    }
  }

  class ReplayProtection {
    const cache: InMemoryRuntimeCache

    constructor (cache: InMemoryRuntimeCache)
      ensures this.cache == cache
    {
      this.cache := cache;
    }

    method RegisterNonce(nonce: string, now: int) returns (added: bool)
      modifies cache
      ensures added == (NonceKey(nonce) !in old(cache.store))
      ensures cache.store == if added then old(cache.store)[NonceKey(nonce) := TimeEntry(now)] else old(cache.store)
    {
      var known := cache.Exists(NonceKey(nonce));
      if known {
        return false;
      }
      cache.Put(NonceKey(nonce), TimeEntry(now));
      added := true;
    }

    method NonceExists(nonce: string) returns (b: bool)
      ensures b == (NonceKey(nonce) in cache.store)
    {
      b := cache.Exists(NonceKey(nonce));
    }

    method RegisterTokenUsage(id: string, now: int)
      modifies cache
      ensures cache.store == old(cache.store)[UsedKey(id) := TimeEntry(now)]
    {
      cache.Put(UsedKey(id), TimeEntry(now));
    }

    method TokenAlreadyUsed(id: string) returns (b: bool)
      ensures b == (UsedKey(id) in cache.store)
    {
      b := cache.Exists(UsedKey(id));
    }
  }

  class ExecutionGateway {
    const tokenEngine: TransientActionTokenEngine
    const replay: ReplayProtection

    constructor (tokenEngine: TransientActionTokenEngine, replay: ReplayProtection)
      ensures this.tokenEngine == tokenEngine && this.replay == replay
    {
      this.tokenEngine := tokenEngine;
      this.replay := replay;
    }

    ghost function View(): Stores
      reads tokenEngine.cache, replay.cache
    {
      Stores(tokenEngine.cache == replay.cache, tokenEngine.cache.store, replay.cache.store)
    }

    method IssueToken(nonce: Option<string>, freshId: string, freshNonce: string, now: int)
      modifies tokenEngine.cache
      ensures View() == Step(tokenEngine.ttlSeconds, old(View()), Issue(nonce, freshId, freshNonce, now))
    {
      var t := tokenEngine.IssueToken(nonce, freshId, freshNonce, now);
    }

    method ExecuteToken(id: string, now: int) returns (o: Outcome)
      modifies tokenEngine.cache, replay.cache
      ensures o == ExecuteOutcome(old(View()), id, now)
      ensures View() == Step(tokenEngine.ttlSeconds, old(View()), Execute(id, now))
    {
      o := tokenEngine.ValidateToken(id, now);
      if !o.Approved? {
        return;
      }
      var nonce := o.nonce;
      var nonceSeen := replay.NonceExists(nonce);
      if nonceSeen {
        return DuplicateNonce;
      }
      var used := replay.TokenAlreadyUsed(id);
      if used {
        return UsageRegistered;
      }
      var added := replay.RegisterNonce(nonce, now);
      replay.RegisterTokenUsage(id, now);
      KeysNeverCollide(id, id);
      KeysNeverCollide(id, nonce);
      tokenEngine.InvalidateToken(id);
    }
  }

  // ---------- Agreement over whole runs ----------

  /** The executions of a run that were approved, in order: token id and nonce. */
  ghost function Approvals(shared: bool, ttlSeconds: int, events: seq<Event>): seq<(string, string)> {
    if events == [] then []
    else
      var front, last := events[..|events| - 1], events[|events| - 1];
      var before := Run(shared, ttlSeconds, front);
      Approvals(shared, ttlSeconds, front)
      + (if last.Execute? && ExecuteOutcome(before, last.id, last.now).Approved?
         then [(last.id, ExecuteOutcome(before, last.id, last.now).nonce)] else [])
  }

  /** uuid4 never returns a token id twice. */
  ghost predicate FreshTokenIds(events: seq<Event>) {
    forall i, j :: 0 <= i < j < |events| && events[i].Issue? && events[j].Issue? ==>
      events[i].freshId != events[j].freshId
  }

  ghost predicate IssuedIn(events: seq<Event>, id: string) {
    exists i :: 0 <= i < |events| && events[i].Issue? && events[i].freshId == id
  }

  ghost predicate ApprovedId(approved: seq<(string, string)>, id: string) {
    exists i :: 0 <= i < |approved| && approved[i].0 == id
  }

  ghost predicate ApprovedNonce(approved: seq<(string, string)>, nonce: string) {
    exists i :: 0 <= i < |approved| && approved[i].1 == nonce
  }

  /** The token flag, the usage register and the nonce register say the same as the list of approvals, in
      which no token and no nonce appears twice. */
  ghost predicate Agree(s: Stores, approved: seq<(string, string)>) {
    && Coherent(s)
    && (forall id ::
          TokenOf(s.engine, id).Some? && TokenOf(s.engine, id).value.invalidated <==> ApprovedId(approved, id))
    && (forall id :: UsedKey(id) in s.replay <==> ApprovedId(approved, id))
    && (forall n :: NonceKey(n) in s.replay <==> ApprovedNonce(approved, n))
    && (forall i :: 0 <= i < |approved| ==>
          TokenOf(s.engine, approved[i].0).Some? && TokenOf(s.engine, approved[i].0).value.nonce == approved[i].1)
    && (forall i, j :: 0 <= i < j < |approved| ==> approved[i].0 != approved[j].0 && approved[i].1 != approved[j].1)
  }

  lemma IssueKeepsAgreement(ttlSeconds: int, s: Stores, approved: seq<(string, string)>, e: Event)
    requires Agree(s, approved) && e.Issue? && TokenOf(s.engine, e.freshId).None?
    ensures Agree(Step(ttlSeconds, s, e), approved)
    ensures forall id ::
      TokenOf(Step(ttlSeconds, s, e).engine, id).Some? <==> TokenOf(s.engine, id).Some? || id == e.freshId
  {
    forall id ensures
      && TokenKey(e.freshId) != UsedKey(id) && TokenKey(e.freshId) != NonceKey(id)
      && (TokenKey(e.freshId) == TokenKey(id) <==> e.freshId == id)
    {
      KeysNeverCollide(e.freshId, id);
    }
  }

  /** Key by key, what an approved execution changes. */
  lemma ApprovedExecution(s: Stores, id: string, now: int, key: string)
    requires Coherent(s) && ExecuteOutcome(s, id, now).Approved?
    ensures var after := AfterExecute(s, id, now);
      && Coherent(after)
      && TokenOf(after.engine, id) == Some(TokenOf(s.engine, id).value.(invalidated := true))
      && (key != id ==> TokenOf(after.engine, key) == TokenOf(s.engine, key))
      && (UsedKey(key) in after.replay <==> UsedKey(key) in s.replay || key == id)
      && (NonceKey(key) in after.replay <==> NonceKey(key) in s.replay || key == ExecuteOutcome(s, id, now).nonce)
  {
    var nonce := ExecuteOutcome(s, id, now).nonce;
    KeysNeverCollide(id, id);
    KeysNeverCollide(id, nonce);
    KeysNeverCollide(id, key);
    KeysNeverCollide(key, id);
    KeysNeverCollide(key, nonce);
    KeysNeverCollide(nonce, key);
  }

  /** Once the token is not invalidated, its usage is not registered. */
  lemma UnusedIfNotInvalidated(s: Stores, approved: seq<(string, string)>, id: string, now: int)
    requires Agree(s, approved)
    ensures ExecuteOutcome(s, id, now) != UsageRegistered
  {
  }

  lemma ExecuteKeepsAgreement(s: Stores, approved: seq<(string, string)>, id: string, now: int)
    requires Agree(s, approved) && ExecuteOutcome(s, id, now).Approved?
    ensures Agree(AfterExecute(s, id, now), approved + [(id, ExecuteOutcome(s, id, now).nonce)])
    ensures forall k :: TokenOf(AfterExecute(s, id, now).engine, k).Some? <==> TokenOf(s.engine, k).Some?
  {
    var nonce := ExecuteOutcome(s, id, now).nonce;
    var after, more := AfterExecute(s, id, now), approved + [(id, nonce)];
    forall k ensures
      && (ApprovedId(more, k) <==> ApprovedId(approved, k) || k == id)
      && (ApprovedNonce(more, k) <==> ApprovedNonce(approved, k) || k == nonce)
    {
      ApprovalsSnoc(approved, id, nonce, k);
    }
    assert !ApprovedId(approved, id) && !ApprovedNonce(approved, nonce);
    assert forall i :: 0 <= i < |approved| ==> approved[i].0 != id && approved[i].1 != nonce;
    hide AfterExecute, ExecuteOutcome, ApprovedId, ApprovedNonce, TokenOf;
    forall k ensures
      && (TokenOf(after.engine, k).Some? <==> TokenOf(s.engine, k).Some?)
      && (TokenOf(after.engine, k).Some? ==>
            && TokenOf(after.engine, k).value.nonce == TokenOf(s.engine, k).value.nonce
            && (TokenOf(after.engine, k).value.invalidated <==> TokenOf(s.engine, k).value.invalidated || k == id))
      && (UsedKey(k) in after.replay <==> UsedKey(k) in s.replay || k == id)
      && (NonceKey(k) in after.replay <==> NonceKey(k) in s.replay || k == nonce)
    {
      ApprovedExecution(s, id, now, k);
      ApprovedTokenExists(s, id, now);
    }
    ApprovedExecution(s, id, now, id);
    ApprovedTokenExists(s, id, now);
  }

  lemma ApprovedTokenExists(s: Stores, id: string, now: int)
    requires ExecuteOutcome(s, id, now).Approved?
    ensures TokenOf(s.engine, id).Some? && TokenOf(s.engine, id).value.nonce == ExecuteOutcome(s, id, now).nonce
  {
  }

  lemma ApprovalsSnoc(approved: seq<(string, string)>, id: string, nonce: string, k: string)
    ensures ApprovedId(approved + [(id, nonce)], k) <==> ApprovedId(approved, k) || k == id
    ensures ApprovedNonce(approved + [(id, nonce)], k) <==> ApprovedNonce(approved, k) || k == nonce
  {
    var more := approved + [(id, nonce)];
    assert more[|approved|] == (id, nonce);
    assert forall i :: 0 <= i < |approved| ==> more[i] == approved[i];
  }

  ghost predicate KnownAreIssued(s: Stores, events: seq<Event>) {
    forall id :: TokenOf(s.engine, id).Some? <==> IssuedIn(events, id)
  }

  lemma IssueStep(ttlSeconds: int, s: Stores, approved: seq<(string, string)>, events: seq<Event>)
    requires events != [] && events[|events| - 1].Issue? && FreshTokenIds(events)
    requires Agree(s, approved) && KnownAreIssued(s, events[..|events| - 1])
    ensures var after := Step(ttlSeconds, s, events[|events| - 1]);
      Agree(after, approved) && KnownAreIssued(after, events)
  {
    var front, last := events[..|events| - 1], events[|events| - 1];
    assert !IssuedIn(front, last.freshId);
    hide Agree, IssuedIn, TokenOf, NewToken;
    IssueKeepsAgreement(ttlSeconds, s, approved, last);
    forall id ensures IssuedIn(events, id) <==> IssuedIn(front, id) || last.freshId == id {
      IssuedSnoc(events, id);
    }
  }

  lemma ExecuteStep(s: Stores, approved: seq<(string, string)>, events: seq<Event>)
    requires events != [] && events[|events| - 1].Execute?
    requires Agree(s, approved) && KnownAreIssued(s, events[..|events| - 1])
    ensures var last := events[|events| - 1];
      var o := ExecuteOutcome(s, last.id, last.now);
      var after := AfterExecute(s, last.id, last.now);
      && Agree(after, approved + (if o.Approved? then [(last.id, o.nonce)] else []))
      && KnownAreIssued(after, events)
  {
    var front, last := events[..|events| - 1], events[|events| - 1];
    hide Agree, IssuedIn, TokenOf, AfterExecute, ExecuteOutcome;
    forall id ensures IssuedIn(events, id) <==> IssuedIn(front, id) {
      IssuedSnoc(events, id);
    }
    if ExecuteOutcome(s, last.id, last.now).Approved? {
      ExecuteKeepsAgreement(s, approved, last.id, last.now);
    } else {
      RefusedChangesNothing(s, last.id, last.now);
      assert approved + [] == approved;
    }
  }

  /** In every run of issues and executions, over one cache or two: the three memories agree, no token and no
      nonce is approved twice, and only issued tokens are known. */
  lemma {:induction false} StoresAgree(shared: bool, ttlSeconds: int, events: seq<Event>)
    requires FreshTokenIds(events)
    ensures Agree(Run(shared, ttlSeconds, events), Approvals(shared, ttlSeconds, events))
    ensures KnownAreIssued(Run(shared, ttlSeconds, events), events)
  {
    if events != [] {
      var front, last := events[..|events| - 1], events[|events| - 1];
      assert forall i :: 0 <= i < |front| ==> front[i] == events[i];
      StoresAgree(shared, ttlSeconds, front);
      hide Agree, KnownAreIssued, AfterExecute, ExecuteOutcome, NewToken;
      var s, approved := Run(shared, ttlSeconds, front), Approvals(shared, ttlSeconds, front);
      if last.Issue? {
        IssueStep(ttlSeconds, s, approved, events);
        assert approved + [] == approved;
      } else {
        ExecuteStep(s, approved, events);
      }
    }
  }

  lemma RefusedChangesNothing(s: Stores, id: string, now: int)
    requires !ExecuteOutcome(s, id, now).Approved?
    ensures AfterExecute(s, id, now) == s
  {
  }

  lemma IssuedSnoc(events: seq<Event>, id: string)
    requires events != []
    ensures var last := events[|events| - 1];
      IssuedIn(events, id) <==> IssuedIn(events[..|events| - 1], id) || (last.Issue? && last.freshId == id)
  {
    var front := events[..|events| - 1];
    assert forall i :: 0 <= i < |front| ==> front[i] == events[i];
  }

  ghost function Ids(approved: seq<(string, string)>): seq<string> {
    seq(|approved|, i requires 0 <= i < |approved| => approved[i].0)
  }

  ghost function Nonces(approved: seq<(string, string)>): seq<string> {
    seq(|approved|, i requires 0 <= i < |approved| => approved[i].1)
  }

  lemma ListsHoldApprovals(approved: seq<(string, string)>, k: string)
    ensures k in Ids(approved) <==> ApprovedId(approved, k)
    ensures k in Nonces(approved) <==> ApprovedNonce(approved, k)
  {
    if ApprovedId(approved, k) {
      var i :| 0 <= i < |approved| && approved[i].0 == k;
      assert Ids(approved)[i] == k;
    }
    if ApprovedNonce(approved, k) {
      var i :| 0 <= i < |approved| && approved[i].1 == k;
      assert Nonces(approved)[i] == k;
    }
  }

  lemma DistinctLists(s: Stores, approved: seq<(string, string)>)
    requires Agree(s, approved)
    ensures |set x | x in Ids(approved)| == |set x | x in Nonces(approved)| == |approved|
  {
    DistinctCounts(Ids(approved));
    DistinctCounts(Nonces(approved));
  }

  // ---------- What is executed ----------

  /** The nonce a token is issued with: the one that was asked for, if it is not empty. */
  ghost function IssuedNonce(e: Event): string
    requires e.Issue?
  {
    if e.nonce == None || e.nonce == Some("") then e.freshNonce else e.nonce.value
  }

  /** What one more event makes of a token that is known. */
  lemma KnownToken(ttlSeconds: int, s: Stores, e: Event, id: string)
    requires Coherent(s)
    ensures e.Issue? && e.freshId == id ==>
      TokenOf(Step(ttlSeconds, s, e).engine, id) == Some(CachedToken(id, IssuedNonce(e), e.now + ttlSeconds, false))
    ensures !(e.Issue? && e.freshId == id) && TokenOf(s.engine, id).Some? ==>
      var before, after := TokenOf(s.engine, id).value, TokenOf(Step(ttlSeconds, s, e).engine, id);
      after.Some? && after.value.nonce == before.nonce && after.value.expiresAt == before.expiresAt
  {
    if e.Issue? {
      KeysNeverCollide(e.freshId, id);
    } else {
      hide AfterExecute, ExecuteOutcome;
      if ExecuteOutcome(s, e.id, e.now).Approved? {
        ApprovedExecution(s, e.id, e.now, id);
      } else {
        RefusedChangesNothing(s, e.id, e.now);
      }
    }
  }

  lemma {:induction false} RunIsCoherent(shared: bool, ttlSeconds: int, events: seq<Event>)
    ensures Coherent(Run(shared, ttlSeconds, events)) && Run(shared, ttlSeconds, events).shared == shared
  {
    if events != [] {
      RunIsCoherent(shared, ttlSeconds, events[..|events| - 1]);
    }
  }

  /** A token keeps the nonce and the expiry it was issued with. */
  lemma {:induction false} IssuedTokenStays(shared: bool, ttlSeconds: int, events: seq<Event>, k: nat)
    requires FreshTokenIds(events) && k < |events| && events[k].Issue?
    ensures var t := TokenOf(Run(shared, ttlSeconds, events).engine, events[k].freshId);
      t.Some? && t.value.nonce == IssuedNonce(events[k]) && t.value.expiresAt == events[k].now + ttlSeconds
  {
    hide Step, TokenOf, IssuedNonce, Coherent;
    var front, last := events[..|events| - 1], events[|events| - 1];
    assert forall i :: 0 <= i < |front| ==> front[i] == events[i];
    RunIsCoherent(shared, ttlSeconds, front);
    KnownToken(ttlSeconds, Run(shared, ttlSeconds, front), last, events[k].freshId);
    if k < |events| - 1 {
      IssuedTokenStays(shared, ttlSeconds, front, k);
    }
  }

  /** The answer to an execution after any run, for a token that event `k` issued: approved, with the nonce it was
      issued with, if and only if it is in time and neither it nor its nonce was in an approved execution before. */
  lemma ExecutedIff(shared: bool, ttlSeconds: int, events: seq<Event>, k: nat, now: int)
    requires FreshTokenIds(events) && k < |events| && events[k].Issue?
    ensures var id, nonce := events[k].freshId, IssuedNonce(events[k]);
      var approved := Approvals(shared, ttlSeconds, events);
      var o := ExecuteOutcome(Run(shared, ttlSeconds, events), id, now);
      var late := now >= events[k].now + ttlSeconds;
      && (o == Approved(nonce) <==> !ApprovedId(approved, id) && !late && !ApprovedNonce(approved, nonce))
      && (o == TokenInvalidated <==> ApprovedId(approved, id))
      && (o == TokenExpired <==> !ApprovedId(approved, id) && late)
      && (o == DuplicateNonce <==> !ApprovedId(approved, id) && !late && ApprovedNonce(approved, nonce))
  {
    hide Run, Approvals, TokenOf, ApprovedId, ApprovedNonce, IssuedNonce, KnownAreIssued;
    StoresAgree(shared, ttlSeconds, events);
    IssuedTokenStays(shared, ttlSeconds, events, k);
  }

  /** A token that nobody issued is not known. */
  lemma UnknownIff(shared: bool, ttlSeconds: int, events: seq<Event>, id: string, now: int)
    requires FreshTokenIds(events)
    ensures ExecuteOutcome(Run(shared, ttlSeconds, events), id, now) == TokenNotFound <==> !IssuedIn(events, id)
  {
    hide Run, Approvals, Agree, TokenOf, IssuedIn;
    StoresAgree(shared, ttlSeconds, events);
  }

  /** Event `j` of the run is an approved execution of this token. */
  ghost predicate ExecutesAt(shared: bool, ttlSeconds: int, events: seq<Event>, j: nat, id: string)
    requires j < |events|
  {
    && events[j].Execute? && events[j].id == id
    && ExecuteOutcome(Run(shared, ttlSeconds, events[..j]), id, events[j].now).Approved?
  }

  lemma ExecutesInFront(shared: bool, ttlSeconds: int, events: seq<Event>, j: nat, id: string)
    requires j < |events| - 1
    ensures ExecutesAt(shared, ttlSeconds, events[..|events| - 1], j, id)
      <==> ExecutesAt(shared, ttlSeconds, events, j, id)
  {
    hide ExecuteOutcome, Run;
    assert events[..|events| - 1][..j] == events[..j];
  }

  lemma ApprovalsUnfold(shared: bool, ttlSeconds: int, events: seq<Event>, id: string)
    requires events != []
    ensures ApprovedId(Approvals(shared, ttlSeconds, events), id)
      <==> ApprovedId(Approvals(shared, ttlSeconds, events[..|events| - 1]), id)
           || ExecutesAt(shared, ttlSeconds, events, |events| - 1, id)
  {
    hide Run, ExecuteOutcome, ApprovedId;
    var front, last := events[..|events| - 1], events[|events| - 1];
    var before := Approvals(shared, ttlSeconds, front);
    if last.Execute? && ExecuteOutcome(Run(shared, ttlSeconds, front), last.id, last.now).Approved? {
      ApprovalsSnoc(before, last.id, ExecuteOutcome(Run(shared, ttlSeconds, front), last.id, last.now).nonce, id);
    } else {
      assert before + [] == before;
    }
  }

  /** The list of approvals is that of the executions that were approved. */
  lemma {:induction false} ApprovalsAreExecutions(shared: bool, ttlSeconds: int, events: seq<Event>, id: string)
    ensures ApprovedId(Approvals(shared, ttlSeconds, events), id)
      <==> exists j: nat :: j < |events| && ExecutesAt(shared, ttlSeconds, events, j, id)
  {
    if events == [] {
      assert Approvals(shared, ttlSeconds, events) == [];
    } else {
      hide *;
      var front := events[..|events| - 1];
      ApprovalsAreExecutions(shared, ttlSeconds, front, id);
      ApprovalsUnfold(shared, ttlSeconds, events, id);
      forall j: nat | j < |front|
        ensures ExecutesAt(shared, ttlSeconds, front, j, id) <==> ExecutesAt(shared, ttlSeconds, events, j, id)
      {
        ExecutesInFront(shared, ttlSeconds, events, j, id);
      }
    }
  }

  /** In no run does the last check ever fire: a token that passes the others has no usage registered. */
  lemma UsageCheckNeverFires(shared: bool, ttlSeconds: int, events: seq<Event>, id: string, now: int)
    requires FreshTokenIds(events)
    ensures ExecuteOutcome(Run(shared, ttlSeconds, events), id, now) != UsageRegistered
  {
    hide Run, Approvals, Agree, ExecuteOutcome;
    StoresAgree(shared, ttlSeconds, events);
    UnusedIfNotInvalidated(Run(shared, ttlSeconds, events), Approvals(shared, ttlSeconds, events), id, now);
  }

  /** Each of the three memories has as many members as there were approvals. */
  lemma MemoriesHaveOneEntryPerApproval(shared: bool, ttlSeconds: int, events: seq<Event>)
    returns (ids: set<string>, nonces: set<string>)
    requires FreshTokenIds(events)
    ensures var s := Run(shared, ttlSeconds, events);
      && (forall id :: id in ids <==> UsedKey(id) in s.replay)
      && (forall id :: id in ids <==> TokenOf(s.engine, id).Some? && TokenOf(s.engine, id).value.invalidated)
      && (forall n :: n in nonces <==> NonceKey(n) in s.replay)
    ensures |ids| == |nonces| == |Approvals(shared, ttlSeconds, events)|
  {
    var approved := Approvals(shared, ttlSeconds, events);
    StoresAgree(shared, ttlSeconds, events);
    DistinctLists(Run(shared, ttlSeconds, events), approved);
    ids := set x | x in Ids(approved);
    nonces := set x | x in Nonces(approved);
    hide Ids, Nonces, Run, Approvals, TokenOf, ApprovedId, ApprovedNonce;
    forall k ensures (k in ids <==> ApprovedId(approved, k)) && (k in nonces <==> ApprovedNonce(approved, k)) {
      ListsHoldApprovals(approved, k);
    }
  }

  /** A nonce is registered exactly if a used token carries it. */
  lemma NonceIsOfAUsedToken(shared: bool, ttlSeconds: int, events: seq<Event>, n: string)
    requires FreshTokenIds(events)
    ensures var s := Run(shared, ttlSeconds, events);
      NonceKey(n) in s.replay
      <==> exists id :: UsedKey(id) in s.replay && TokenOf(s.engine, id).Some? && TokenOf(s.engine, id).value.nonce == n
  {
    var s, approved := Run(shared, ttlSeconds, events), Approvals(shared, ttlSeconds, events);
    StoresAgree(shared, ttlSeconds, events);
    hide Run, Approvals, TokenOf;
    if ApprovedNonce(approved, n) {
      var i :| 0 <= i < |approved| && approved[i].1 == n;
      assert ApprovedId(approved, approved[i].0);
      assert UsedKey(approved[i].0) in s.replay;
    }
    forall id | UsedKey(id) in s.replay && TokenOf(s.engine, id).Some? && TokenOf(s.engine, id).value.nonce == n
      ensures NonceKey(n) in s.replay
    {
      assert ApprovedId(approved, id);
      var i :| 0 <= i < |approved| && approved[i].0 == id;
      assert ApprovedNonce(approved, n);
    }
  }

  lemma {:induction false} DistinctCounts(s: seq<string>)
    requires forall i, j :: 0 <= i < j < |s| ==> s[i] != s[j]
    ensures |set x | x in s| == |s|
  {
    if s != [] {
      var front, last := s[..|s| - 1], s[|s| - 1];
      assert forall i :: 0 <= i < |front| ==> front[i] == s[i];
      DistinctCounts(front);
      assert last !in front;
      assert (set x | x in s) == (set x | x in front) + {last};
    }
  }
}
