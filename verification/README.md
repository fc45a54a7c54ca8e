# AgentGuard: a verified model

AgentGuard guards what software agents are allowed to do. This project models its decision and execution
core in Dafny and proves what its parts promise, over all inputs, all runs and all orders of calls.
Everything is in one directory; `dafny verify dfyconfig.toml` checks the whole project.

| modules | what they model |
|---|---|
| `CanonicalJson`, `CanonicalJsonProofs`, `JsonReader` | the serializer that request fingerprints are taken of, and a reader of JSON text |
| `TokenService`, `ActionServer`, `ActionServerRuns`, `ActionServerAnswers` | one-shot execution tokens, rulings, and the preview / approve / deny / token / execute / reset server around them |
| `PyValues`, `AuditLog` | JSON values of the Python side, sanitizing, hashed audit records |
| `RuntimePolicy`, `Gateway`, `GatewayRuns`, `GatewayAnswers`, `ApprovalAnswers`, `DailyLimit` | the payment gateway: limits, human approvals, tokens, and the audit log that doubles as the spending ledger |
| `LimitFailures`, `UncountedTokens`, `LegacyPath`, `Anomaly` | where the daily limit does not hold, and exactly when; the anomaly detectors |
| `ReplayStores` | replay-protected execution over a token engine and a replay store, with one cache or two |
| `PolicyConfig` | merging policy files, migrating the old whitelist, filling in defaults |
| `ZipReader`, `DocxText`, `PdfLiteral`, `PdfWriters` | the document parsers of the input-control demo |
| `Findings`, `Masking`, `MaskingProofs`, `MaskingOverlaps`, `MaskTables` | masking by a right-to-left splice, and what it leaves when spans overlap |
| `RiskPolicy`, `RiskPolicyProofs`, `RiskTables`, `Inspection` | composite risks, destination risks, policy rules, and the inspection around them |
| `CheckDigits`, `MnemonicScan` | the Luhn and business-number check digits, and the greedy scan for seed phrases |
| `Wrappers`, `Sequences`, `RealTimes` | an option type, shared operations on sequences, multiples of amounts |

Components that change state in place are classes whose methods are proved equal to a specification on
values (`Step`, `Run`, `Evaluate`, `Inspect` and their parts); the theorems about runs are about that
specification. Loops of the program are loops here, proved against the functions the theorems speak of.

## Conventions

- SHA-256, signatures and identifiers are ideal: a digest is as good as what it was made from, a signature says
  of which payload it was made, fresh identifiers differ from earlier ones and signatures are not forged where
  a theorem says so.
- Time is an input of every step. Where a call reads the clock several times, `Clock` has one reading for
  its checks, one for the records it writes and one for the token it issues; nothing relates the clocks of different calls.
- The answer of the anomaly detectors is an input of a call, arbitrary in every theorem but those that say it is the
  detectors' own (`LegacyPath.LegacyHasNoLimitIff`).
- What the ledger, the executor, the regular-expression detectors, inflation and
  text decoding answer is an input, arbitrary in every theorem.
- The comparison of object keys is any function; theorems say what they need of it.
- Amounts are exact reals where the program has floats, and integers where it truncates.
- `kind` stands for the field `type` of a finding, `Neutral` for its contribution `NONE`.
- Numbers that are not finite are written as `null` by the serializer and count as equal to it.
- A character is a Unicode scalar value. JavaScript counts UTF-16 code units, so positions and lengths of text with
  characters beyond the basic plane differ from those in the program, and lone surrogates do not occur here.

## Where the code and its documentation differ, or may surprise

- `agentguard/gateway.py:425` and `:670` call `check_policy`, which the class that is loaded does not have;
  its `evaluate` (`agentguard/policy/__init__.py:21-34`) is what is modelled.
- The legacy path of `request_execution` never looks at the daily limit (`LegacyPath.LegacyIgnoresTheLedger`,
  `LegacyPath.LegacyHasNoLimitIff`), so the limit theorems are about the runtime path
  (`DailyLimit.RuntimeDailyLimit`) and about `process_action` (`DailyLimit.ProcessDailyLimit`, and exactly in
  `LimitFailures.LimitHoldsIff`).
- The ledger counts records with the status APPROVED only, so payments that are approved conditionally or by a human
  get tokens that no daily limit ever counts (`UncountedTokens.TokensExceedIff`).
- `localeCompare` gives 0 for canonically equivalent keys, so it does not separate distinct keys. What is executed is
  still what its token was issued for (`ActionServerRuns.ExecutionIntegrity` needs nothing of the comparison); what can
  happen is that the same request is refused when such keys come in another order (`ActionServerRuns.ExecutesExactly`).
- Attempts are counted by actor, type and target joined with colons, so that colons in them can make one action count as
  another (`ActionServerAnswers.AttemptsAreOwnIff`, `ActionServerAnswers.ColonsConfuse`).
- Previews are kept by action id alone, so the executed action need not be the previewed one
  (`ActionServerRuns.PreviewedAndExecutedCanDiffer`, and exactly in `ActionServerRuns.ExecutedIsPreviewedIff`).
- Overlapping spans, such as an address inside a password, can leave characters of a span in the masked text, and can
  take text outside all spans away (`MaskingOverlaps.LeaksIff`, `MaskingOverlaps.LosesIff`). The second happens to the
  text behind every JSON web token of more than sixteen characters, which two detectors report
  (`MaskingOverlaps.TextBehindTokenIsLost`).
- Findings left in a masked text take the masking flag away, which can turn MASK into ALLOW
  (`Inspection.ResidueSoftensDecisionIff`). The input shown for it needs rules that say nothing of phone and account
  numbers (`Inspection.SoftenedInput`); the shipped policy has a rule for each and asks for a review.
- The runtime policy never answers REQUIRE_APPROVAL (`RuntimePolicy.ApprovedIff`), so the branch of
  `request_execution` for that answer is never taken.
- `minSeverity` in the shipped input-control policy is read by no code and has no counterpart here.
- A mnemonic phrase right behind a reported one is not reported (`MnemonicScan.SecondPhraseMissed`).
- A PDF literal with an escaped backslash before an octal digit is decoded wrongly
  (`PdfLiteral.ReadsRightIffNotMisread` says exactly when).

## Model

| member | source | states |
|---|---|---|
| `CanonicalJsonProofs.StringifyIsCanonical` | ts-agentguard/src/token-service.ts:5-16 | two well-formed values get the same text if and only if they are equal up to object member order at every depth, for any key comparison that is total and separates distinct keys |
| `JsonReader.StringifyReads` | ts-agentguard/src/token-service.ts:5-16 | round trip: what is written is JSON text (RFC 8259, sections 2 to 7), and a reader of such text gives the value back with its members sorted and null for numbers that are not finite, under any key comparison |
| `JsonReader.TextRead` | ts-agentguard/src/token-service.ts:5-16 | the reader returns exactly the value that was written and leaves what follows it |
| `CanonicalJsonProofs.EqualTextMeansSame` | ts-agentguard/src/token-service.ts:5-16 | the direction that security rests on needs nothing of the key comparison: equal text means equal values |
| `CanonicalJsonProofs.TextTellsCanon` | ts-agentguard/src/token-service.ts:5-16 | for any key comparison at all: equal text if and only if the two values are equal once every object has been sorted with it |
| `CanonicalJsonProofs.CodeUnitOrderSeparates` | ts-agentguard/src/token-service.ts:11 | comparing keys code unit by code unit is total and separates distinct keys, so the conditions on the comparison can be met |
| `CanonicalJsonProofs.SameIsEquivalence` | ts-agentguard/src/token-service.ts:5-16 | equality up to member order is reflexive, symmetric and transitive |
| `CanonicalJsonProofs.TextDecodes` | ts-agentguard/src/token-service.ts:5-16 | unique decodability: two texts followed by a comma, a closing bracket or the end coincide only if both the values and the remainders do; numbers alone are no prefix code |
| `CanonicalJsonProofs.TextItemsDecode` | ts-agentguard/src/token-service.ts:6-8 | the same for the comma-separated elements of arrays |
| `CanonicalJsonProofs.TextFieldsDecode` | ts-agentguard/src/token-service.ts:9-14 | the same for the key-value members of objects |
| `CanonicalJsonProofs.QuoteDecodes` | ts-agentguard/src/token-service.ts:12-15 | a quoted string ends where its text says it ends, whatever characters it holds: quoted texts are a prefix code |
| `CanonicalJsonProofs.StringifyIsTextOfCanon` | ts-agentguard/src/token-service.ts:5-16 | sorting while serializing gives the text of the value whose objects have been sorted at every depth |
| `CanonicalJsonProofs.SameHasOneCanon` | ts-agentguard/src/token-service.ts:9-14 | values equal up to member order are sorted into one and the same value, if the comparison separates keys |
| `CanonicalJsonProofs.SameKeyByKey` | ts-agentguard/src/token-service.ts:9-14 | objects that list the same keys in the same order are the same exactly if their members are the same key by key |
| `CanonicalJsonProofs.TiedKeysShowTheirOrder` | ts-agentguard/src/token-service.ts:11 | if two distinct keys compare as equal, the stable sort lets their insertion order through and the same object gets two texts |
| `CanonicalJsonProofs.OrderIsHiddenIffKeysAreSeparated` | ts-agentguard/src/token-service.ts:11 | member order is invisible in the text exactly for comparisons that separate distinct keys |
| `TokenService.TokenStore.constructor` | ts-agentguard/src/token-service.ts:39-40 | a new service knows no token |
| `TokenService.TokenStore.Issue` | ts-agentguard/src/token-service.ts:42-55 | the token is minted for the action at this time and stored under its fresh id; no other token changes |
| `TokenService.TokenStore.ValidateForExecution` | ts-agentguard/src/token-service.ts:57-85 | the verdict is the first check that fails, in the order of the code; a valid token is marked used and nothing else changes |
| `TokenService.TokenStore.Clear` | ts-agentguard/src/token-service.ts:87-89 | all tokens are forgotten |
| `TokenService.ApprovalStore.Approve` | ts-agentguard/src/approval.ts:6-8 | the ruling on this action id is approved, all other rulings stay |
| `TokenService.ApprovalStore.Deny` | ts-agentguard/src/approval.ts:10-12 | the ruling on this action id is denied, all other rulings stay |
| `TokenService.ApprovalStore.Get` | ts-agentguard/src/approval.ts:14-16 | the latest ruling, if there is one |
| `TokenService.ApprovalStore.Clear` | ts-agentguard/src/approval.ts:18-20 | all rulings are forgotten |
| `ActionServer.Server.PreviewAction` | ts-agentguard/src/server.ts:140-190 | handler, tied to the state machine: the answer is the specified response and the whole state is the specified next state |
| `ActionServer.Server.Approve` | ts-agentguard/src/server.ts:192-197 | the same for approve |
| `ActionServer.Server.Deny` | ts-agentguard/src/server.ts:199-204 | the same for deny |
| `ActionServer.Server.IssueToken` | ts-agentguard/src/server.ts:387-409 | the same for token issuing, which refuses an action whose id is not the one in the path |
| `ActionServer.Server.Execute` | ts-agentguard/src/server.ts:206-275 | the same for execute up to the point where it waits for the executor |
| `ActionServer.Server.Complete` | ts-agentguard/src/server.ts:276-283 | the same for the rest of execute, which other requests may have overtaken |
| `ActionServer.Server.Reset` | ts-agentguard/src/server.ts:296-314 | the same for reset: everything is forgotten but the executions under way |
| `ActionServerRuns.ExecutesExactly` | ts-agentguard/src/server.ts:206-276 | after any run of requests and under any key comparison, an execute request reaches the executor if and only if the latest preview of its action id since the last reset was not DENY (and, if REVIEW_REQUIRED, the latest ruling is approve), the token was issued since then for an action equal on all seven fingerprint fields, is unspent and in time, with a comparable loan amount, and the comparison sorts the two requests alike |
| `ActionServerRuns.ExecutesIffAuthorized` | ts-agentguard/src/server.ts:206-276 | under a comparison that is total and separates distinct keys the last of these conditions says nothing more: an execute request reaches the executor if and only if it was let through and its token covers it |
| `ActionServerRuns.ExecutionIntegrity` | ts-agentguard/src/server.ts:206-276 | execution integrity, under any key comparison: at any position of any run, what was executed was let through and covered by its token |
| `ActionServerRuns.FingerprintTellsRequest` | ts-agentguard/src/token-service.ts:18-30 | under any key comparison, fingerprints are equal exactly if the comparison sorts the two requests alike, and then all seven fields agree, parameters and context up to member order |
| `ActionServerRuns.FingerprintIdentifiesRequest` | ts-agentguard/src/token-service.ts:18-30 | under a comparison that is total and separates distinct keys, fingerprints are equal exactly if all seven fields agree up to member order |
| `ActionServerRuns.IssuedRequestPassesIffLoanIsComparable` | ts-agentguard/src/token-service.ts:32-36 | the request a token was issued for passes, in time and unspent, exactly if its loan amount is absent or a number: other text becomes NaN, which is never equal to itself |
| `ActionServerRuns.TokenExecutesAtMostOnce` | ts-agentguard/src/token-service.ts:65-67 | in any run, resets included, two executions never use the same token |
| `ActionServerRuns.ExecutedIsPreviewedIff` | ts-agentguard/src/server.ts:212-216 | what was executed is what was previewed under its action id exactly if the token was issued for what was previewed |
| `ActionServerRuns.PreviewedAndExecutedCanDiffer` | ts-agentguard/src/server.ts:186-240 | previews are kept by action id alone: an allowed preview, a token for another request under the same id and its execution reach the executor, even if the policy denies that other request |
| `ActionServerRuns.PreviewRemembered` | ts-agentguard/src/server.ts:186 | the stored preview of an action id is the decision on its latest preview since the last reset, and is there exactly if there was one |
| `ActionServerRuns.RulingRemembered` | ts-agentguard/src/server.ts:192-204 | the stored ruling is the latest approve or deny since the last reset |
| `ActionServerRuns.TokenRemembered` | ts-agentguard/src/token-service.ts:39-55 | the stored token is the one minted at its issue, used exactly if it has been spent since |
| `ActionServerRuns.StaysSpent` | ts-agentguard/src/token-service.ts:83 | a spent token stays spent or forgotten under every continuation that does not issue its id again |
| `ActionServerRuns.AuditShowsExecutions` | ts-agentguard/src/server.ts:271-275 | the audit log has one execution_attempted entry for every execution since the last reset, in every run |
| `ActionServerRuns.ExecutionsAreConserved` | ts-agentguard/src/server.ts:271-283 | every execution of the whole run has been completed or is still with its executor |
| `ActionServerAnswers.PreviewAnswer` | ts-agentguard/src/server.ts:140-190 | the answer to a preview after any run: decision of the policy, risk with the number of previews since the last reset whose actor, type and target join to the same text, approval required exactly for REVIEW_REQUIRED |
| `ActionServerAnswers.AttemptsRemembered` | ts-agentguard/src/server.ts:148-149 | the counter holds that number, after any run |
| `ActionServerAnswers.AttemptsAreOwnIff` | ts-agentguard/src/server.ts:148-149 | it is the number of previews by the same actor, of the same type and for the same target if and only if no preview since the last reset joins alike but is another |
| `ActionServerAnswers.NoColonsNoConfusion` | ts-agentguard/src/server.ts:148 | without colons in actors and types two previews join alike exactly if all three agree |
| `ActionServerAnswers.ColonsConfuse` | ts-agentguard/src/server.ts:148 | with colons an action that was never previewed can be scored as a second attempt |
| `ActionServerAnswers.RefusalSaysWhy` | ts-agentguard/src/server.ts:206-239 | in terms of the history: an execute is told that a preview is missing, that the policy denies, or that a review is not approved, exactly if that is so |
| `ActionServerAnswers.TokenRefusalSaysWhy` | ts-agentguard/src/token-service.ts:57-82 | and once policy and ruling let it through, which of the token checks failed first: never issued, later than 120 seconds, spent, other action id, type, target, or anything else |
| `ActionServerAnswers.LoanAmountIff` | ts-agentguard/src/token-service.ts:32-36 | the loan amount is the number under loanAmountRLUSD, or what its text reads as |
| `ActionServerAnswers.LogGrows` | ts-agentguard/src/server.ts:140-283 | which events each request adds to the log, by its answer; only a reset empties it |
| `AuditLog.SanitizeForAudit` | agentguard/audit/__init__.py:14-24 | the recursive loop computes the specified sanitized value |
| `AuditLog.SanitizedAt` | agentguard/audit/__init__.py:14-24 | at every path: nothing is left under a sensitive key at any depth, and every path without one leads to the sanitized form of what it led to before |
| `AuditLog.SensitiveIsSecret` | agentguard/audit/__init__.py:10-19 | the keys that are dropped are signer_seed, seed, private_key, secret and raw_seed, in any mixture of small and capital letters, and no others |
| `AuditLog.SecretsAreDropped` | agentguard/audit/__init__.py:14-24 | a path leads somewhere after sanitizing exactly if it did before and no key on it spells one of these five words; numbers, texts and truth values at its end are unchanged |
| `AuditLog.SanitizedIsClean` | agentguard/audit/__init__.py:14-24 | the result has no sensitive key at any depth, case folded |
| `AuditLog.UnchangedIffClean` | agentguard/audit/__init__.py:14-24 | exactly the values without sensitive keys are left alone |
| `AuditLog.SanitizeIsIdempotent` | agentguard/audit/__init__.py:14-24 | sanitizing twice is sanitizing once |
| `AuditLog.RequestHashIgnoresExactlySecrets` | agentguard/audit/__init__.py:35-36 | two payloads get the same request hash if and only if they agree everywhere outside sensitive keys |
| `AuditLog.ResealingForgetsTheOldHash` | agentguard/audit/__init__.py:89-97 | the record hash does not depend on the hash that is stored |
| `AuditLog.RecordHashTellsContents` | agentguard/audit/__init__.py:89-97 | two records have the same hash if and only if status, agent, reason, token id and time are equal and the requests agree outside sensitive keys |
| `AuditLog.MerkleAuditLog.Append` | agentguard/audit/__init__.py:99-101 | the record is appended with its hash, earlier records stay |
| `AuditLog.MerkleAuditLog.PatchLast` | agentguard/gateway.py:121-131 | the newest record gets one more request entry and the hash that belongs to it |
| `RuntimePolicy.CheckLimits` | agentguard/policy_engine.py:61-78 | flags, first reason and hard block of the amount, daily-limit and address checks |
| `RuntimePolicy.EvaluatePolicy` | agentguard/policy_engine.py:44-164 | the imperative evaluation, tied to its specification: decision, score, flags without repetition, reason |
| `RuntimePolicy.ApprovedIff` | agentguard/policy_engine.py:54-133 | APPROVED exactly if agent, action, purpose, amount, daily limit, address, whitelist, account and trustline all pass and the risk is below the thresholds; human approval is never asked for |
| `RuntimePolicy.VerdictIff` | agentguard/policy_engine.py:44-133 | over the payment and the answers of the ledger alone: blocked, approved conditionally or approved exactly when, and the score that is reported |
| `RuntimePolicy.RiskIsOf` | agentguard/policy_engine.py:117 | the risk is that of the new destination and twenty for every after-hours, frequency and split flag |
| `RuntimePolicy.ReasonSaysWhy` | agentguard/policy_engine.py:54-133 | the reason is that of the first check that fails |
| `RuntimePolicy.FlagsIff` | agentguard/policy_engine.py:61-117 | which flags a payment gets that is not blocked at once |
| `RuntimePolicy.RiskIgnoresLimits` | agentguard/policy_engine.py:117 | limit flags carry no weight: the risk score depends on neither the amount nor what was spent |
| `RuntimePolicy.SpendingMoreNeverHelps` | agentguard/policy_engine.py:61-69 | asking for more, or having spent more, never gets a better verdict |
| `Gateway.AgentGuardGateway.ExpireApprovalRequests` | agentguard/gateway.py:136-148 | the loop expires exactly the pending approvals whose time is up and writes one EXPIRED record for each, in order |
| `Gateway.AgentGuardGateway.CreateApprovalRequest` | agentguard/gateway.py:93-131 | a pending approval and its REQUIRE_APPROVAL record, patched with the approval id and hashed again |
| `Gateway.AgentGuardGateway.ApproveRequest` | agentguard/gateway.py:150-203 | whole new state and reply of an approve call: expiry first, then unknown id, wrong status, or grant with token and record |
| `Gateway.AgentGuardGateway.RejectRequest` | agentguard/gateway.py:205-221 | whole new state and reply of a reject call |
| `Gateway.AgentGuardGateway.CheckDailyLimit` | agentguard/gateway.py:229-252 | the loop over the log accepts exactly if the amount fits under the limit with what the agent or the wallet has spent since midnight UTC |
| `Gateway.AgentGuardGateway.ProcessActionCall` | agentguard/gateway.py:401-508 | whole new state and reply of process_action |
| `Gateway.AgentGuardGateway.RuntimeUsedToday` | agentguard/gateway.py:517-542 | the loop sums the truncated raw amounts of approved records of the day for the agent or the wallet |
| `Gateway.AgentGuardGateway.RequestExecutionCall` | agentguard/gateway.py:510-658 | whole new state and reply of request_execution on the runtime path, which hands over to the legacy path unless the gateway policy has no maximum |
| `Gateway.AgentGuardGateway.RequestExecutionLegacy` | agentguard/gateway.py:660-726 | whole new state and reply of the legacy path |
| `Gateway.AgentGuardGateway.ConsumeTokenForExecution` | agentguard/gateway.py:728-729 | verdict and new state of consuming a token |
| `Gateway.TokenIssuer.IssueToken` | agentguard/token.py:29-40 | the signed token for this subject and action, with the fresh id and sixty seconds to live; the id is appended to the issued ids |
| `Gateway.TokenIssuer.VerifyToken` | agentguard/token.py:42-64 | signature, expiry, missing id and, when consuming, replay in this order; exactly an accepted and consumed id becomes used |
| `GatewayAnswers.ProcessAnswerIff` | agentguard/gateway.py:401-508 | for every state and every payment: blocked exactly if not within the maximum, off one of the four lists, or over the daily limit with what was spent; below a risk of 31 approved, below 40 approved conditionally, otherwise a human is asked; a token exactly with an approval, for this agent and this payment; one more record with this status |
| `GatewayAnswers.ProcessSaysWhy` | agentguard/gateway.py:223-252 | the reason is that of the first check that fails, in the order of the code, or that of the risk |
| `GatewayAnswers.LegacyAnswerIff` | agentguard/gateway.py:660-726 | the same of the legacy path, over the request as it was given: a token exactly if at most a thousand units, within the maximum and on the four lists, at a risk below 40 or in the demo mode |
| `GatewayAnswers.RuntimeAnswerIff` | agentguard/gateway.py:510-658 | the same of the runtime path: a token exactly if the runtime policy does not block the payment, with what was used today counted in |
| `GatewayAnswers.UsedIsSpent` | agentguard/gateway.py:229-252 | what the two limit checks take as used is the sum over the approved records of this UTC day or later of the agent or the wallet |
| `GatewayRuns.CallEffect` | agentguard/gateway.py:93-729 | every call does one of six things to the books, with the facts that hold of each: the basis of the invariants below |
| `GatewayRuns.LogAgreesWithIssuer` | agentguard/token.py:39 | after every run, every stored record hash is the recomputed one, patched records included, and the issued ids are in order the token ids of the log |
| `GatewayRuns.TamperingShows` | agentguard/audit/__init__.py:89-101 | after any run, another record put into the log under the stored hash leaves the hashes in agreement if and only if it has the same status, agent, reason, token id, time and, outside sensitive keys, request |
| `GatewayRuns.TokenIssuerAdapter.IssuedJti` | agentguard/api/__init__.py:24-31 | the loop returns exactly the non-empty token ids of the log |
| `GatewayRuns.AdapterSeesTheIssued` | agentguard/api/__init__.py:24-31 | after every run, the set the adapter rebuilds from the log is exactly the set of non-empty issued ids |
| `GatewayRuns.ApprovalsAreConserved` | agentguard/gateway.py:93-221 | after every run: approval ids are distinct; each id has one REQUIRE_APPROVAL record, one closing record of the kind its status says and none of any other kind, and no closing record while it is pending; ids nobody opened have no record |
| `GatewayRuns.StatusStepInRun` | agentguard/gateway.py:136-221 | in any run, one more call leaves every status other than pending as it is, and a pending approval becomes approved only by an approve call on it that comes before it expires |
| `GatewayRuns.ClosedStaysClosed` | agentguard/gateway.py:136-221 | a closed approval has the same status after every continuation of the run |
| `GatewayRuns.OverdueIsNotGranted` | agentguard/gateway.py:150-156 | an approve call at or after expires_at is never granted |
| `ApprovalAnswers.PendingIff` | agentguard/gateway.py:136-221 | an approval that a call of the run has opened is there ever after, for 3600 seconds and about the same payment, and is pending exactly as long as no ruling was on it and none came when its time was up |
| `ApprovalAnswers.RulingAnswerIff` | agentguard/gateway.py:150-221 | an approve or reject call is carried out if and only if an earlier call asked under this id, no ruling on it has come since, none that came found its time up, and neither does this one; an id is unknown exactly if no call asked under it |
| `ApprovalAnswers.GrantedIsAskedFor` | agentguard/gateway.py:150-203 | a granted token names the payment that was asked about |
| `ApprovalAnswers.TokensAreOnLists` | agentguard/policy/__init__.py:21-34 | in any run of process_action, legacy execution, approval and consumption calls, every token handed out is for an amount within the maximum and for an action, a purpose and a destination on the lists |
| `GatewayRuns.TokenAcceptedAtMostOnce` | agentguard/token.py:42-64 | in any run, two accepted consumptions are of different ids; what is accepted passed the signature check and is in time |
| `GatewayRuns.AcceptsIff` | agentguard/token.py:42-64 | in any run a consumption is accepted if and only if the token is signed for what it says, is not late, has an id, and no earlier accepted consumption had this id |
| `GatewayRuns.RefusalSaysWhy` | agentguard/token.py:42-64 | and a refused one is told the first of these that fails |
| `GatewayRuns.VerifiesIff` | agentguard/token.py:42-64 | verifying without consuming looks at the token alone |
| `GatewayRuns.HandedIsAcceptedOnce` | agentguard/token.py:29-64 | a token that a call handed out, with an id that is not empty, is accepted exactly up to sixty seconds after that call issued it and as long as its id was not consumed |
| `GatewayRuns.HandedIsIssued` | agentguard/token.py:29-40 | whatever call answers with a token: it is signed, its id is one the call drew, it expires sixty seconds after its issue time, and exactly this id is appended to the issued ids |
| `GatewayRuns.AcceptedWasIssuedOnce` | agentguard/token.py:29-64 | if signatures cannot be forged, an accepted token is, expiry and all, the answer of exactly one earlier call, presented in the sixty seconds after that call issued it; every token ever handed out under its id is this token; the issued ids have no repetition and are the token ids of the log |
| `DailyLimit.RuntimeDailyLimit` | agentguard/gateway.py:517-542 | in every run of request_execution, approve, reject and consume calls under a daily limit, for every agent, every wallet and every UTC day, the truncated raw amounts of APPROVED records sum to at most the limit (or 0), even if check and record fall on different days |
| `DailyLimit.ProcessDailyLimit` | agentguard/gateway.py:229-252 | the same for process_action calls with amounts that are not negative, in exact amounts |
| `LimitFailures.NegativeAmountsBreakTheLimit` | agentguard/gateway.py:229-252 | on any route the policy leaves open, for every limit that is not negative and every refund that leaves the payment within the maximum, two calls of two agents on one wallet exceed the limit by the refund |
| `LimitFailures.RefundsBreakTheLimit` | agentguard/gateway.py:229-252 | for every limit, negative ones too, every payment within the maximum and every refund that fits under the limit: enough refunds make room for enough payments of another agent to exceed it |
| `LimitFailures.LimitHoldsIff` | agentguard/gateway.py:229-252 | with an open route and any maximum: every run of process_action and approval calls with fresh ids and with amounts from a bound on stays within the limit (or 0) if and only if the bound is not negative, or above a limit that is itself negative, or the maximum lets nothing positive through |
| `UncountedTokens.ConditionalIsUnseen` | agentguard/gateway.py:474-497 | on an open route and a log without approved records, a payment within limit and maximum at a risk from 31 to 39 is answered with a token for its amount and leaves the log without approved records |
| `UncountedTokens.GrantIsUnseen` | agentguard/gateway.py:178-202 | the same of the approval by a human, in time, of the request opened last |
| `UncountedTokens.TokensExceedIff` | agentguard/gateway.py:245-253 | with an open route and at any risk from 31 on, conditional or approved by a human: runs of process_action and approval calls hand out tokens to one agent on one day for more than any amount if and only if the daily limit and the maximum are positive |
| `LegacyPath.LegacyIgnoresTheLedger` | agentguard/gateway.py:660-726 | for one answer of the risk detectors, the legacy path replies the same and writes the same record whatever the log says |
| `LegacyPath.LegacyHasNoLimitIff` | agentguard/gateway.py:660-726 | on the legacy path every limit is exceeded by some run, with fresh ids and with the risk of every call as the detectors find it in the log, if and only if some request with a positive amount passes the guards of the path |
| `Anomaly.DetectNewDestinationRisk` | agentguard/gateway.py:299-313 | the loop finds out whether no record of the agent or the wallet has this destination |
| `Anomaly.DetectAmountSpike` | agentguard/gateway.py:315-329 | the loop compares the amount with three times the average of the agent or the wallet, once there are three records |
| `Anomaly.DetectFrequencySpike` | agentguard/gateway.py:331-344 | the loop counts the records of the agent or the wallet of the last ten minutes, five being too many |
| `Anomaly.CalculateAnomalyScore` | agentguard/gateway.py:366-390 | score and flags, in order, of the three detectors and the context, or what a demo request brings along |
| `Anomaly.NewDestinationIff` | agentguard/gateway.py:299-313 | over places in the log: new is a destination that is there and to which no record of the agent or the wallet went |
| `Anomaly.AmountSpikeIff` | agentguard/gateway.py:315-329 | a spike is three records of the agent or the wallet at least, and an amount three times their average at least |
| `Anomaly.FrequencySpikeIff` | agentguard/gateway.py:331-344 | so are five records that are not older than 600 seconds |
| `Anomaly.AnomalyIs` | agentguard/gateway.py:366-390 | outside the demo mode: which flags there are, and a score of 30, 30, 20, 30 and 10 for them |
| `Anomaly.LegacyRiskIs` | agentguard/gateway.py:676-691 | the legacy path adds ten from 22 to 6 o'clock, if the request carries its time; in the demo mode the request brings its score along |
| `Anomaly.RepeatsScoreLow` | agentguard/gateway.py:366-390 | against a log of approvals of itself only, of any length, a request with a positive amount and nothing in its context never scores more than 30 |
| `DailyLimit.CheckSeesTheDay` | agentguard/gateway.py:229-252 | a check sees everything recorded for the payer on its own UTC day and on later ones |
| `DailyLimit.ApprovalKeepsLimit` | agentguard/gateway.py:229-252 | a record approved on a check that left room keeps every payer and every day within the limit |
| `DailyLimit.PolicyAmountCoversRaw` | agentguard/gateway.py:36-53 | the amount the policy checks is never less than the raw amount the ledger adds up |
| `ReplayStores.KeysNeverCollide` | agentguard/runtime/transient_token_engine.py:32 | token, usage and nonce keys are pairwise different whatever the ids, so one shared cache mixes nothing up |
| `ReplayStores.InMemoryRuntimeCache.Put` | agentguard/storage/cache/runtime_cache.py:25-26 | the entry is stored under the key, all others stay |
| `ReplayStores.InMemoryRuntimeCache.Exists` | agentguard/storage/cache/runtime_cache.py:31-32 | membership of the key |
| `ReplayStores.TransientActionTokenEngine.IssueToken` | agentguard/runtime/transient_token_engine.py:14-33 | the cache holds the new token under its key; nonce as given or fresh, expiry by the lifetime |
| `ReplayStores.TransientActionTokenEngine.ValidateToken` | agentguard/runtime/transient_token_engine.py:35-43 | unknown, invalidated, expired or valid, in this order; nothing changes |
| `ReplayStores.TransientActionTokenEngine.InvalidateToken` | agentguard/runtime/transient_token_engine.py:45-49 | exactly this token, if known, is invalidated |
| `ReplayStores.ReplayProtection.RegisterNonce` | agentguard/security/replay_protection/__init__.py:11-16 | the nonce is registered unless it was |
| `ReplayStores.ReplayProtection.RegisterTokenUsage` | agentguard/security/replay_protection/__init__.py:21-22 | the usage is registered |
| `ReplayStores.ExecutionGateway.ExecuteToken` | agentguard/runtime/execution_gateway.py:29-65 | outcome and whole new contents of the caches, shared or not, of one execution |
| `ReplayStores.StoresAgree` | agentguard/runtime/execution_gateway.py:29-42 | in every run of issues and executions over one cache or two: token invalidated, usage registered and approved are the same set; registered nonces are those of approved tokens; no token and no nonce is approved twice |
| `ReplayStores.ExecutedIff` | agentguard/runtime/execution_gateway.py:29-65 | in any run, the execution of an issued token is approved, with the nonce it was issued with, if and only if it is in time and neither the token nor the nonce was in an approved execution before; otherwise which of these failed first |
| `ReplayStores.UnknownIff` | agentguard/runtime/execution_gateway.py:29-33 | a token is unknown exactly if it was not issued |
| `ReplayStores.ApprovalsAreExecutions` | agentguard/runtime/execution_gateway.py:29-42 | a token is among the approved ones exactly if some execution of it was answered so |
| `ReplayStores.MemoriesHaveOneEntryPerApproval` | agentguard/runtime/execution_gateway.py:40-42 | each of the three memories has exactly as many members as there were approvals |
| `ReplayStores.NonceIsOfAUsedToken` | agentguard/runtime/execution_gateway.py:33-36 | a nonce is registered exactly if some used token carries it |
| `ReplayStores.UsageCheckNeverFires` | agentguard/runtime/execution_gateway.py:37-38 | in no run over one cache or two is the usage check the one that refuses |
| `ZipReader.ReadZipEntry` | input-control-demo/src/file-analyzer.ts:10 | the loop terminates on every buffer, reads only inside it, and computes the specified walk |
| `ZipReader.FoundUnderItsName` | input-control-demo/src/file-analyzer.ts:10 | on any buffer whatever: returned data was announced by a local header with the requested name |
| `ZipReader.ReadsFirstNamed` | input-control-demo/src/file-analyzer.ts:10 | on entries with non-empty names, each preceded by signature-free junk, with a tail that is skipped: exactly the data of the first entry of the requested name, nothing if there is none (local file header of section 4.3.7 of PKWARE APPNOTE) |
| `ZipReader.BareLastHeaderIsSkipped` | input-control-demo/src/file-analyzer.ts:10 | the boundary: a last entry of thirty header bytes and nothing else is where the loop has given up already |
| `DocxText.ExtractDocxText` | input-control-demo/src/file-analyzer.ts:9 | signature check, document part, error cases, then the specified replacements |
| `DocxText.RefusedIff` | input-control-demo/src/file-analyzer.ts:9 | which files are refused, and with which error |
| `DocxText.SpacesAre` | input-control-demo/src/file-analyzer.ts:9 | which characters are white space, by number |
| `DocxText.UnescapeUndoesEscape` | input-control-demo/src/file-analyzer.ts:9 | decoding the three entities in the order of the code undoes the escaping of section 4.6 of XML 1.0 for every text |
| `DocxText.AmpersandFirstWouldNot` | input-control-demo/src/file-analyzer.ts:9 | decoding the ampersand first would not |
| `DocxText.NormalizeIsJoinedWords` | input-control-demo/src/file-analyzer.ts:9 | collapsing white space and trimming gives, for every text, its words joined by single spaces |
| `DocxText.ExtractionReturnsRuns` | input-control-demo/src/file-analyzer.ts:9 | round trip: from a body of tags and escaped, non-empty, white-space normal runs with a tag between any two, the seven replacements return the runs joined by single spaces |
| `DocxText.DocxFileReturnsRuns` | input-control-demo/src/file-analyzer.ts:9-10 | the same from the bytes of an archive whose first word/document.xml is that body, stored |
| `PdfLiteral.CharPassUndoesEscape` | input-control-demo/tests/document-parsing.test.ts:9 | the first replacement pass undoes the escaper for every text |
| `PdfLiteral.RoundTripIffNoOctalEscape` | input-control-demo/src/file-analyzer.ts:8 | decoding an escaped text returns it if and only if no backslash in it is followed by an octal digit |
| `PdfWriters.DecodesIffNoCollision` | input-control-demo/src/file-analyzer.ts:8 | for a writer that writes each character plain, by its name or in one to three octal digits, in any mixture: decoding returns the text if and only if no backslash written by name stands right before a plain octal digit |
| `PdfWriters.OctalRoundTrip` | input-control-demo/src/file-analyzer.ts:8 | every text of characters below 512 comes back that is written in three octal digits each |
| `PdfWriters.NamedRoundTripIff` | input-control-demo/src/file-analyzer.ts:8 | a text comes back whose line feeds, returns, tabs, backspaces, form feeds, parentheses and backslashes are written by name, if and only if no backslash in it stands before an octal digit |
| `PdfWriters.ReadOnceReturns` | input-control-demo/src/file-analyzer.ts:8 | the decoder that reads once returns what is written in any such mixture |
| `PdfLiteral.TwoPassesAgainstOne` | input-control-demo/src/file-analyzer.ts:8 | against a decoder that reads every escape where it stands (section 7.3.4.2 of ISO 32000-1), the two passes never give more characters, and fewer exactly on a misread |
| `PdfLiteral.ReadsRightIffNotMisread` | input-control-demo/src/file-analyzer.ts:8 | the two passes agree with that decoder if and only if no escaped backslash stands before an octal digit |
| `PdfLiteral.ReadOnceRoundTrip` | input-control-demo/tests/document-parsing.test.ts:9 | the decoder that reads once would return every escaped text |
| `Masking.MaskText` | input-control-demo/src/masking-engine.ts:3 | the splice loop and the rest of the result, tied to the specification |
| `Masking.SpliceAllSnoc` | input-control-demo/src/masking-engine.ts:3 | one more turn of the loop is one more splice of the text so far |
| `Masking.KindsOfMaskable` | input-control-demo/src/masking-engine.ts:3 | the reported types are exactly those of the maskable findings |
| `MaskTables.SafeTextIff` | input-control-demo/src/masking-engine.ts:3 | an inspection masks exactly if some finding is not a name, not exempt, of none of the four categories, not of the file metadata and not empty, and counts these |
| `MaskTables.ResidueIff` | input-control-demo/src/masking-engine.ts:3 | what counts of what is found in the masked text: all but the five types that masks look like |
| `MaskTables.EmailMask` | input-control-demo/src/sensitive-data-detector.ts:5 | the mask of an address: first character, stars, domain as it is |
| `MaskTables.SecretMask` | input-control-demo/src/sensitive-data-detector.ts:5 | the mask of a key, token or password: three characters and a fixed tail |
| `MaskTables.OtherMasks` | input-control-demo/src/sensitive-data-detector.ts:5 | the masks of everything else |
| `MaskingProofs.MaskingIsOnePass` | input-control-demo/src/masking-engine.ts:3 | for spans inside the text that do not overlap, listed in any order: the right-to-left splice is the left-to-right substitution of the original text |
| `MaskingProofs.MaskingIgnoresOrder` | input-control-demo/src/masking-engine.ts:3 | listing the findings in another order gives the same text, overlaps or not, if no two different maskable findings start at one position |
| `MaskingProofs.MaskedLength` | input-control-demo/src/masking-engine.ts:3 | for spans inside the text that do not overlap: the length of the safe text is that of the text plus what each mask gains or loses |
| `MaskingProofs.UnmaskedSurvives` | input-control-demo/src/masking-engine.ts:3 | for spans inside the text that do not overlap: every character outside all spans survives, moved by what the spans before it gained or lost |
| `MaskingProofs.MaskStandsInPlace` | input-control-demo/src/masking-engine.ts:3 | for spans inside the text that do not overlap: in the place of every span stands its mask, made of the original text |
| `MaskingProofs.TextBeforeSpansSurvives` | input-control-demo/src/masking-engine.ts:3 | for any spans, overlapping or past the end, text before the first of them is untouched |
| `MaskingOverlaps.LeftIffSurvives` | input-control-demo/src/masking-engine.ts:3 | any number of spans, overlapping, equal or past the end: a character of the text is left in the masked text if and only if, at the turn of every span that starts at or before it, its place as moved by the spans before is not in front of that span end; then it stands where the spans have moved it, once |
| `MaskingOverlaps.OriginsAreExact` | input-control-demo/src/masking-engine.ts:3 | the same for every position of the masked text: it holds a mask character or exactly one surviving character of the text |
| `MaskingOverlaps.LeaksIff` | input-control-demo/src/masking-engine.ts:3 | characters of spans are left standing if and only if one is right before an edge of some span, by span ends and mask lengths |
| `MaskingOverlaps.LosesIff` | input-control-demo/src/masking-engine.ts:3 | text outside all spans is lost if and only if it is lost right behind the end of some span |
| `MaskingOverlaps.SeparateSpansAreExact` | input-control-demo/src/masking-engine.ts:3 | if no two spans share a character, nothing leaks and nothing is lost |
| `MaskingOverlaps.TwoSpansLeakIff` | input-control-demo/src/masking-engine.ts:3 | of two spans the one with the earlier start leaves characters of itself standing exactly if the other ends before it and gets a mask longer than itself |
| `MaskingOverlaps.TwoSpansLoseIff` | input-control-demo/src/masking-engine.ts:3 | text behind two spans is lost exactly if there is any and the mask of the later start is so short that the end of both, moved, falls short of the end of the earlier start |
| `MaskingOverlaps.EqualSpans` | input-control-demo/src/masking-engine.ts:3 | two findings on one span leak nothing, and lose text behind exactly if there is any and the mask applied first is shorter than the span |
| `MaskingOverlaps.TwoSpansText` | input-control-demo/src/masking-engine.ts:3 | the masked text of two spans in closed form, overlapping or not |
| `MaskingOverlaps.TextBehindTokenIsLost` | input-control-demo/src/masking-engine.ts:3 | every JSON web token is also reported as a service account token, on the same span and after it; with these two findings and their masks, the text behind a token loses as many characters as the token is longer than sixteen |
| `MaskingOverlaps.TokenSwallowsTheRest` | input-control-demo/src/masking-engine.ts:3 | an input for it: a token of 26 characters, and the eight behind it are gone |
| `MaskingOverlaps.InnerMaskLeaks` | input-control-demo/src/masking-engine.ts:3 | a span inside another whose mask is longer than itself leaves as much of the end of the outer span standing |
| `MaskingOverlaps.PasswordTailLeaks` | input-control-demo/src/masking-engine.ts:3 | an input for the leak: an address inside a password, behind a first word, with the masks the detectors give, leaves three characters of the password standing |
| `MaskingOverlaps.EqualStartsShowOrder` | input-control-demo/src/masking-engine.ts:3 | two different findings at one start: the order in which they are listed shows |
| `MaskingProofs.MaskTellsOnlyShown` | input-control-demo/src/sensitive-data-detector.ts:5 | two values get the same mask exactly if they agree on what the mask shows: domain, first letter and length class of an address, three characters of a secret, two at each end of the rest |
| `CheckDigits.ValidCard` | input-control-demo/src/sensitive-data-detector.ts:3 | the loop accepts exactly the texts with 13 to 19 digits whose Luhn sum ends in zero |
| `CheckDigits.LuhnOneDigit` | input-control-demo/src/sensitive-data-detector.ts:3 | in a number of any length one changed digit always changes the last digit of the sum (Annex B of ISO/IEC 7812-1) |
| `CheckDigits.LuhnNeighbours` | input-control-demo/src/sensitive-data-detector.ts:3 | swapped neighbours change it exactly unless they are equal or 0 and 9 |
| `CheckDigits.LuhnTwins` | input-control-demo/src/sensitive-data-detector.ts:3 | a doubled digit mistyped as another changes it exactly unless they are 2 and 5, 3 and 6, or 4 and 7 |
| `CheckDigits.LuhnTwoApart` | input-control-demo/src/sensitive-data-detector.ts:3 | digits two places apart can always be swapped unnoticed |
| `CheckDigits.LuhnCheckDigitIsUnique` | input-control-demo/src/sensitive-data-detector.ts:3 | every number has exactly one check digit |
| `CheckDigits.CardDigitChangeRefused` | input-control-demo/src/sensitive-data-detector.ts:3 | on the text of a valid card number, separators included: a changed digit is always refused |
| `CheckDigits.CardSwapRefused` | input-control-demo/src/sensitive-data-detector.ts:3 | on the text of a valid card number: swapped neighbours are accepted exactly if equal or 0 and 9 |
| `CheckDigits.BusinessChecksum` | input-control-demo/src/detectors/korean-identity-detector.ts:5 | the weighted loop accepts exactly ten digits whose total with the carry of the ninth ends in zero |
| `CheckDigits.BusinessOneDigit` | input-control-demo/src/detectors/korean-identity-detector.ts:5 | in a valid business number any changed digit is noticed, at every place |
| `CheckDigits.SharesDiffer` | input-control-demo/src/detectors/korean-identity-detector.ts:5 | at every place the ten digits contribute different last digits; at the ninth it is 5d + d/2 that permutes them |
| `CheckDigits.BusinessNeighbours` | input-control-demo/src/detectors/korean-identity-detector.ts:5 | swapped neighbours go unnoticed exactly if equal modulo 5 in the first seven places, equal modulo 4 at the eighth, and equal or 0 and 9 at the ninth |
| `CheckDigits.BusinessCheckDigitIsUnique` | input-control-demo/src/detectors/korean-identity-detector.ts:5 | every nine digits have exactly one check digit |
| `PolicyConfig.MergePolicyFiles` | agentguard/policy/__init__.py:67-74 | the recursive loop computes the specified deep merge |
| `PolicyConfig.MergedAt` | agentguard/policy/__init__.py:67-74 | lookup at any path is right-biased: what the second file has there wins (merged if both are dictionaries), what it cuts off is gone, the rest is the first file |
| `PolicyConfig.MergeUnits` | agentguard/policy/__init__.py:67-74 | the empty file is a unit on both sides and a file merged into itself is itself |
| `PolicyConfig.MergeAgain` | agentguard/policy/__init__.py:67-74 | merging the same file in twice is merging it once |
| `PolicyConfig.MergeIsExtraIffCovered` | agentguard/policy/__init__.py:67-74 | nothing of the first file is left exactly if the second has all its keys in every dictionary they share |
| `PolicyConfig.MergeAssociativeIff` | agentguard/policy/__init__.py:67-74 | merging is associative exactly without a clash |
| `PolicyConfig.ClashIffAtPath` | agentguard/policy/__init__.py:67-74 | a clash is a path with a dictionary in the first file, something else in the second, and in the third a dictionary that does not cover the first |
| `PolicyConfig.ClashExample` | agentguard/policy/__init__.py:67-74 | with a clash a setting survives in one order and is gone in the other |
| `PolicyConfig.FilesCanBeBundled` | agentguard/policy/__init__.py:108-111 | without clashes along the way, any number of extra files can be merged beforehand and laid over the base at once |
| `PolicyConfig.PolicyDocument.EnsurePolicyDefaults` | agentguard/policy/__init__.py:82-89 | the loop fills the three sections in place as specified |
| `PolicyConfig.PolicyDocument.ApplyDeprecatedTrustlineWhitelist` | agentguard/policy/__init__.py:91-99 | the old list is migrated in place as specified; nothing changes if an item cannot be a dictionary key |
| `PolicyConfig.LoadPolicyConfig` | agentguard/policy/__init__.py:101-112 | files merged in turn, then migration, then defaults |
| `PolicyConfig.DefaultsFillGaps` | agentguard/policy/__init__.py:82-89 | section by section and key by key: defaults never override, and only absent, null or dictionary sections change |
| `PolicyConfig.DefaultValues` | agentguard/policy/__init__.py:60-62 | the values that are filled in |
| `PolicyConfig.DefaultsIdempotent` | agentguard/policy/__init__.py:82-89 | filling in twice is filling in once |
| `PolicyConfig.MigrationIdempotent` | agentguard/policy/__init__.py:91-99 | migrating twice is migrating once |
| `PolicyConfig.MigrationCommutesWithDefaults` | agentguard/policy/__init__.py:112 | migration and defaults can be applied in either order |
| `PolicyConfig.MigratedListKeepsOrder` | agentguard/policy/__init__.py:97 | the new list has the members of the legacy list followed by the old one, each once, in the order of first occurrence |
| `PolicyConfig.LoadingOnlyAdds` | agentguard/xrpl/trustline/trustline_checker.py:29-36 | for list-valued lists, a destination accepted before loading is accepted after |
| `PolicyConfig.OldListIsEnforced` | agentguard/policy/__init__.py:91-99 | from a policy with the old list only, loading makes one that accepts exactly its destinations |
| `PolicyConfig.LoadingKeepsAnswersIff` | agentguard/xrpl/trustline/trustline_checker.py:29-36 | all answers are the same before and after loading exactly if the check is off, the legacy list is empty, or the old list names nobody new |
| `Sequences.DedupKeepsOrder` | agentguard/policy/__init__.py:97 | what is left of repeated members stands in the order of first occurrence |
| `RiskPolicy.EvaluateCompositeRisks` | input-control-demo/src/detectors/composite-risk-engine.ts:4 | the thirteen conditional pushes give the combinations that are present, in order |
| `RiskPolicy.EvaluateDestinationRisks` | input-control-demo/src/detectors/destination-risk-engine.ts:2 | the four conditional pushes, none without a destination |
| `RiskTables.CompositeRisksIff` | input-control-demo/src/detectors/composite-risk-engine.ts:4 | what is reported as a composite risk, written out over the types of the findings |
| `RiskTables.DestinationRisksIff` | input-control-demo/src/detectors/destination-risk-engine.ts:2 | what is reported as a destination risk, written out over types, categories and destination |
| `RiskPolicy.EvaluatePolicy` | input-control-demo/src/policy-engine.ts:4 | the three loops, tied to the specification: decision, score, level, applied policies |
| `RiskPolicyProofs.VerdictIsJoin` | input-control-demo/src/policy-engine.ts:4 | with what a rule hits written out over types and categories: the decision is the strictest and the score the highest of everything that rules, findings and risks contribute, over the base of the masking flag; the applied policies are exactly those that contribute |
| `RiskPolicyProofs.BlockedAndAllowedIff` | input-control-demo/src/policy-engine.ts:4 | blocked exactly if something says block; allowed exactly if nothing was masked and nothing asks for more |
| `RiskPolicyProofs.DecisionIff` | input-control-demo/src/policy-engine.ts:3-4 | each of the four decisions exactly when, and each of the four levels |
| `RiskPolicyProofs.RuleIsApplied` | input-control-demo/src/policy-engine.ts:4 | a rule is applied if and only if some finding is of a type or a category that it names; then its score and its decision, or REVIEW from its threshold on, bound the verdict from below |
| `RiskPolicyProofs.JudgeIgnoresOrder` | input-control-demo/src/inspection-engine.ts:2 | through composite risks, destination risks and rules, the order of the findings shows nowhere in the verdict |
| `RiskPolicyProofs.JudgeIsMonotone` | input-control-demo/src/inspection-engine.ts:2 | further findings never soften the decision, lower the score or drop an applied policy, with the masking flag fixed and every rule tame |
| `RiskPolicyProofs.TameIffMonotone` | input-control-demo/src/policy-engine.ts:4 | a rule never says less on more matches exactly if its review threshold is absent or 1, or it asks for a review at most |
| `RiskPolicyProofs.UntamedRuleSoftens` | input-control-demo/src/policy-engine.ts:4 | any other rule blocks one finding and only reviews several of the same |
| `RiskPolicyProofs.LosingTheFlag` | input-control-demo/src/policy-engine.ts:4 | further findings that take the masking flag away soften the decision exactly if nothing asks for more than ALLOW |
| `RiskPolicyProofs.PresentGrows` | input-control-demo/src/detectors/composite-risk-engine.ts:4 | each of the thirteen combinations, once present, stays present under further findings |
| `RiskPolicyProofs.AtRiskGrows` | input-control-demo/src/detectors/destination-risk-engine.ts:2 | each of the four destination risks, once present, stays present under further findings |
| `Inspection.InspectionEngine.Record` | input-control-demo/src/audit-log.ts:3 | one event is appended to the audit list |
| `Inspection.InspectionEngine.InspectText` | input-control-demo/src/inspection-engine.ts:2 | refused blank or overlong texts leave no trace; otherwise masking, composite and destination risks and verdict as specified, and exactly the specified events in the audit list |
| `MaskTables.TrailTells` | input-control-demo/src/inspection-engine.ts:2 | the events of an inspection in order; the last says what was decided |
| `Inspection.InspectionIgnoresOrder` | input-control-demo/src/inspection-engine.ts:2 | if no two different maskable findings start at one position, reordering the findings changes neither the safe text nor the verdict nor the risks |
| `Inspection.ResidueSoftensDecisionIff` | input-control-demo/src/inspection-engine.ts:2 | against the verdict on the findings alone, looking again at the masked text softens the decision if and only if something was masked, something is left in it, and nothing among all findings and risks asks for more than ALLOW; then MASK becomes ALLOW; every rule tame |
| `Inspection.ResidueLowersScoreIff` | input-control-demo/src/inspection-engine.ts:2 | and it lowers the score, from 45, if and only if something was masked, something is left, and nothing scores 45 or more; no applied policy is ever lost; for any rules |
| `Inspection.PhoneIsMasked` | input-control-demo/src/masking-engine.ts:3 | the masks of a phone number and an account number, and the masked form of a text in which what is left of the one and what follows it look like the other |
| `Inspection.SoftenedInput` | input-control-demo/src/inspection-engine.ts:2 | an input that is softened from MASK at 45 to ALLOW at 5: that text, under rules that have no rule for the two types |
| `MnemonicScan.DetectMnemonics` | input-control-demo/src/detectors/crypto-secret-detector.ts:3 | the nested loops compute the specified scan and terminate |
| `MnemonicScan.ScanIsScan` | input-control-demo/src/detectors/crypto-secret-detector.ts:3 | reported windows have the shortest length that qualifies, are in increasing order with at least one word between them, and every start that qualifies is reported or lies within a reported window or right behind it |
| `MnemonicScan.QualifiesIff` | input-control-demo/src/detectors/crypto-secret-detector.ts:3 | a window qualifies exactly if it has 12, 15, 18, 21 or 24 words, seven in ten of them at least, in whatever letters, on the list, and a context of eighty characters to both sides that speaks of a wallet |
| `MnemonicScan.ReportTells` | input-control-demo/src/detectors/crypto-secret-detector.ts:3 | a report holds the text from the first word of its window to the end of its last |
| `MnemonicScan.ScanIsUnique` | input-control-demo/src/detectors/crypto-secret-detector.ts:3 | these three facts determine the reports |
| `MnemonicScan.ShortestIsShortest` | input-control-demo/src/detectors/crypto-secret-detector.ts:3 | the length loop finds the shortest of the five lengths that qualifies, if one does |
| `MnemonicScan.ReportedIffChosen` | input-control-demo/src/detectors/crypto-secret-detector.ts:3 | a start is reported exactly if it qualifies and lies behind the shortest window, and the word after it, of every start reported before, all of this by the windows alone |
| `MnemonicScan.ReportedIffNotBlocked` | input-control-demo/src/detectors/crypto-secret-detector.ts:3 | a start that qualifies is missed exactly if an earlier report covers it or ends right before it |
| `MnemonicScan.ReportsNeedWords` | input-control-demo/src/detectors/crypto-secret-detector.ts:3 | k reports take at least 13k - 1 words |
| `MnemonicScan.SecondPhraseMissed` | input-control-demo/src/detectors/crypto-secret-detector.ts:3 | two phrases of twelve words, one right behind the other: only the first is reported |

## Left out

- HTTP, request validation, file reading, environment variables and the JSONL writer: input and output. Requests are well typed.
- The route `/demo/audit-event`, which logs arbitrary events: it would make counting audit events meaningless.
- Ledger, GitHub and settlement calls, and the executors: their answers are inputs.
- Merkle roots, proofs and anchoring: `MerkleAuditLog` has no code for them.
- Receipts, execution explanations and reason texts: they are written and never read by a decision.
- `detect_split_transaction` (`agentguard/gateway.py:346-364`): nothing calls it.
- The branch tables of `policy.ts`, `risk.ts`, `gold.ts`, `kgld.ts` and `action_policy.py`: one function of the request each, arbitrary in the theorems.
- The GitHub token path (`github/executor.py`): it repeats the token argument.
- The regular expressions of the detectors, `inflateRawSync`, UTF-8 decoding and PDF stream scanning: match lists and functions are inputs.
- `validYmd` and the detectors of the demo that are one pattern each: each is a single check that nothing else here depends on.
- Assessment pages, dashboards, report tables and demo HTML: constant data.
- PolicyConfig.LoadPolicyConfig: which base file is found is an input; a file whose root is not a dictionary is not modelled.
- PolicyConfig.MigratedListKeepsOrder: whitelist items are compared as JSON values, so that Python's `True == 1 == 1.0` is not modelled; destinations are texts.
- PolicyConfig.FilesCanBeBundled: for more than two extra files the absence of clashes is sufficient only, since a later file can cover up a clash; for two it is exact (PolicyConfig.MergeAssociativeIff).
- Timestamps and hashes in the audit events of an inspection, and file metadata: they are copied, never decided on.
- The order of keys in Python dictionaries: canonical JSON sorts them before anything depends on it.
- Dictionaries and tokens are values in the models of the Python side: that two names could share one mutable dictionary is not captured.
