# Verification of the EUDI verifier core

The service verifies credentials that a wallet presents over OpenID4VP. A ten-step pipeline decides whether a
response is accepted and stops at the first failing step. A key-value store with single-use markers decides
whether a response or a request object may be used at all. A trust resolver decides which issuer keys count. A
handoff delivers the result and erases attribute values. This project models those parts in Dafny and proves
what the code and its comments promise of them, over every input, every list of credentials, every run and
every interleaving.

`dafny verify dfyconfig.toml` checks everything.

## How it is built

Code that updates state is modelled as classes and methods (`Context`, `Forwarding`, `ContextChecks`, `Engine`,
`Report`, `Finalization`, `Held`, `ValkeyStore`, `Server`, `FailCodes.Registry`, `StatusList`, and the loops of
`CredentialTrust`, `TrustResolution` and `FlattenNames`). Each such method is proved against a function of its
inputs and the old state, and the theorems are lemmas about those functions (`Checks`, `StepOrder`,
`PipelineRun`, `PipelineTheorems`, `Soundness`, `Exactness`, `RevocationPolicy`, `Attribution`, `FailCodes`,
`Requests`, `ConsumeProtocol`, `TimedRuns`, `EndToEnd`). What those functions decide is then said without them, in
the fields of presentation, policy, query, records and faults and in what the libraries answer: `Rulings` of one
presentation, `Verdicts` of a run, `Reporting` of its report, `IssuerSearch` of a key, `Outcomes` of a request
(`Soundness.Sound` is the credential that an accepted presentation becomes). `Findings` holds the concrete runs in which the code
does something its comments do not foresee.

- **Pipeline.** `Checks` says what a step does to one credential. `PipelineRun` is the run of a list of checks on
  values. `Context`, `ContextChecks` and `Engine` are the same run on heap objects, proved equal to it. Libraries
  (SD-JWT, mdoc, status list, DCQL matching, the OpenID4VP engine) are function-valued parameters in
  `PipelineTypes.Env`: what they answer depends on what the code hands them and nothing else; the mdoc library
  may call its issuer callback any number of times, each call depending on the answers so far. Where a theorem
  needs more of a library it says so as a named predicate: `MdocContract`, `StatusContract`, `FailOpenContract`,
  `MatchContract`, `CacheContract`, `HidesTrust`.
- **Report, delivery, erasure.** A Go slice is an array, a length and a spare capacity; a Go map is an object.
  `Build` is the shallow copy it is in the code, so that "the delivered report is independent" is a statement
  about arrays. `Held` is the memory with attribute values in it: byte slices that may overlap, and claim maps
  that a credential and a result may share. A context's presentations and credentials are in that memory, a
  result credential holds a reference to a claim map, and a delivery records what the sink read through it.
- **Store.** `Keyspace` and `ValkeyStore` prove that the flat string-keyed store refines typed per-session
  records, for any id a caller may name. `ConsumeProtocol` interleaves the single commands of `ConsumeOnce`, of
  the winner's own disposal of the session, and of deletes by others; any may fail before or after it took
  effect. `TimedRuns` runs whole requests, atomic, with a clock.
- **Trust.** An ordered nested search over credential types and territories, with the cache that answers it.

A Go string is a sequence of chars, one for each byte; only `Keyspace.New`, which trims white space, reads its
argument as characters.

Hypotheses of the protocol theorems. `ConsumeProtocol`: no marker expires inside the run of calls, and no delete
names an id that spells out the marker; deletes of the session itself, a winner's own among them, may fall
anywhere, and the theorems say which of them matter. `TimedRuns`: requests are atomic, ids and tokens are fresh
when minted, ids have no colon, a session expires after it is minted and at most one session lifetime later, and
the injected clock is the real one. Deletes, requests for the request object and responses may name anything at
all.

## Findings

Where the code does not do what its comments say, the code is followed; each case has its exact condition, for
all inputs, and a concrete run.

- **An outage is blamed on an mdoc.** internal/pipeline/check_issuer_authenticity.go:148-154 says that
  anchor-unavailable stays anchor-unavailable. The code returns the mdoc library's error as it is, and that
  library formats the callback's error as text. `Attribution.OutageExactly`: step 3 reports the outage iff the
  credential is an SD-JWT and its issuer resolution met a stale cache; `Attribution.ProductionOutageExactly` says
  the same of the cache records. `Findings.OutageBlamedOnCredential` and `Findings.StaleDeploymentFails`: an mdoc
  met by a stale cache is called untrusted, which the wallet is told.
- **A delete can reopen another session.** routes/internal.go:312-321 hands any path id to the store, and the key
  of a session `x:consumed` is the key of x's consumed marker. `TimedRuns.MarkersOutliveSessions`: the markers
  stand throughout a run iff no delete spells out the marker of a loadable session that was used;
  `TimedRuns.RepeatsExactly`: a session can be used again iff it is loadable without its marker.
  `Findings.DeleteReopens`: create, respond, delete, respond processes one session twice.
- **Two responses at once can both win.** internal/valkeystore/store.go:109-110 says that exactly one caller is
  ever the first. A call that has read the session and not claimed it yet claims it once more after the winner's
  Finalize deleted session and marker. `ConsumeProtocol.AtMostOneWinner`: at most one call wins when no delete
  reopens the session; `ConsumeProtocol.SecondWinnerExactly`: a delete makes a second winner possible iff it
  finds a call that will write the session back, or one that has it in hand beside one that has won or will roll
  back. `ConsumeProtocol.BothResponsesWin`: the run, with no fault and no delete by anyone else.
- **A retry can be locked out.** internal/valkeystore/store.go:119-126 promises that a legitimate retry is not.
  That holds except when the reply of the claim, or of the rollback, is lost: `ConsumeProtocol.RetryWinsExactly`,
  with `ConsumeProtocol.LostClaimLocksOut`.
- **A failed run can leave its session and its attribute values behind.** routes/processor_pipeline.go:58-60 and
  internal/pipeline/finalize.go:28-31 promise deletion on every failure; the code returns early when the report
  cannot be saved. `Requests.FailedRunDeletes` says when the session is gone and `Server.App.Process` when memory
  is erased; `Findings.FailedRunLeavesSession` is a run that leaves both.
- **A verified session can be marked failed.** routes/wallet.go:139-146 marks the row failed on any error of the
  processor, also on one that comes after a verified report was saved. `Requests.StatusContradictsExactly`, with
  `Findings.VerifiedRunMarkedFailed`.
- **What is delivered can disagree with what is saved.** internal/pipeline/check_assemble_forward.go:35-41
  promises that the delivered report matches the persisted one. After a step 10 whose delivery took effect and
  which failed all the same, the failed result overwrites the first only if it is delivered.
  `Requests.DisagreeExactly`, with `Findings.FailedRunDeliveredVerified`.

## Model

| member | source | states |
|---|---|---|
| `StepOrder.StepMajorIsCredentialMajor` | internal/pipeline/check_issuer_authenticity.go:36-59 | For any list of per-credential steps and any credentials, the step-by-step run fails iff some credential fails alone, at the least of those steps, with the verdict of the first credential in list order that attains it. |
| `StepOrder.ScanCompletes` | internal/pipeline/check_revocation.go:22-129 | A check's loop that meets no fail updates every credential and reports a skip iff some credential was skipped. |
| `StepOrder.ScanStops` | internal/pipeline/check_issuer_authenticity.go:36-59 | A check's loop stops at the first failing credential and leaves those after it untouched. |
| `StepOrder.SingletonIsAlone` | internal/pipeline/check_issuer_authenticity.go:36-59 | A credential judged alone is the run of the list that holds only it. |
| `PipelineTheorems.StepMajorEqualsCredentialMajor` | internal/pipeline/pipeline.go:180-212 | In the engine's own run of the ten checks: it fails within steps 2 to 7 iff some presentation would fail alone, at the least such step, with the code of the first presentation attaining it, in spite of deferral and early exits. |
| `PipelineTheorems.ParseIsScan` | internal/pipeline/check_parse.go:22-54 | Building the credential list one by one equals scanning fresh credentials, with the same first failure. |
| `PipelineTheorems.EngineStops` | internal/pipeline/pipeline.go:180-212 | The engine's report has the number of rows, and the fail code, of the step at which the step-major run of its presentations stops. |
| `PipelineTheorems.FailsAreFails` | internal/pipeline/check_device_binding.go:27-61 | Whatever a per-credential step stops with is a fail row, and leaves the spec reference to the table. |
| `PipelineRun.ReportShape` | internal/pipeline/pipeline.go:180-212 | For every list of checks whatever they do: the rows are the answers of a prefix of the list in order, only the last can be a fail, verified iff the whole list ran without one, the fail code is the last row's, details are at most 200 bytes, a row's spec reference is the check's own if it gave one and else the table's. |
| `PipelineRun.RunGoes` | internal/pipeline/pipeline.go:180-212 | The run goes on past exactly the checks that did not fail, and ends in the state of the check that did. |
| `PipelineRun.VerifiedPassedAll` | internal/pipeline/pipeline.go:193-211 | A verified run failed no check and ends in the state after the last. |
| `Soundness.VerifiedSoundness` | internal/pipeline/pipeline.go:180-212 | A verified run has at least one credential, one for every presentation; each is authentic, not deferred, bound to its holder, neither revoked nor suspended; no payload answers two query ids; the query matched; the result was handed off; the run ends with no attribute value left. |
| `Exactness.VerifiedExactly` | internal/pipeline/pipeline.go:180-212 | Both directions, step by step: the pipeline verifies a response iff step 1 accepts it, it presents something, every presentation passes alone, together they match the query without reusing a payload, and delivery and disposal meet no error; the credentials are then those judged alone. |
| `Verdicts.VerifiedOnAnswers` | internal/pipeline/pipeline.go:180-212 | The same without the steps: the pipeline verifies a response iff step 1 accepts it and every presentation has a sound outcome, the matcher, told of those, is satisfied, no payload answers two query ids, and delivery and disposal meet no error; it ends with those credentials. |
| `Verdicts.RefusedOnAnswers` | internal/pipeline/pipeline.go:180-212 | A response with presentations fails within steps 2 to 7 iff some presentation is ruled out, at the step and with the code of the earliest ruling, the first in list order. |
| `Verdicts.ResponseRefused` | internal/pipeline/check_response_integrity.go:21-87 | Step 1 fails iff the engine refuses the response; its code follows from the sentinels carried, its detail is the wallet's own words or the error text cut off. |
| `Verdicts.StatusRow` | internal/pipeline/check_revocation.go:22-129 | The revocation row of a run that gets past it is skipped iff some presentation's binding failure is pending or its status was answered as skipped. |
| `Verdicts.BindingRow` | internal/pipeline/check_device_binding.go:27-61 | The device binding row of a run that gets past it is skipped iff some presentation is an SD-JWT whose binding policy and query do not both demand, and passes otherwise, mdocs included. |
| `Reporting.ReportTells` | internal/pipeline/report.go:49-56 | A report names the policy branches of exactly the checks that ran, with the policy's choices, absent ones being true; once step 10 was reached it summarises every credential in order, field by field, and none before. |
| `Exactness.MiddleRows` | internal/pipeline/pipeline.go:180-212 | Steps 2 to 7 pass iff every presentation passes them alone. |
| `Exactness.ListIsJudged` | internal/pipeline/check_issuer_authenticity.go:36-59 | After steps 2 to 7 the list holds each credential in the state it reaches alone. |
| `Soundness.CredentialSound` | internal/pipeline/check_issuer_authenticity.go:61-172 | A credential that passes steps 2 to 7 is sound, its fields written out: the library verified this payload under the key resolved from its own chain at the instant the validity model says, for this audience, nonce and key binding (SD-JWT) or this transcript and these callback answers (mdoc); policy and query demand the binding; the status is recorded as answered. |
| `Rulings.RuledExactly` | internal/pipeline/check_issuer_authenticity.go:36-172 | A presentation judged alone is refused at exactly the step, and with the code, that follow from the presentation, the policy, the query and the answers: undecodable, unverified by the group of its error, status refused, not bound, or not at all. An mdoc is never refused for its binding alone. |
| `Rulings.AcceptedExactly` | internal/pipeline/check_user_binding.go:22-34 | A presentation passes steps 2 to 7 and becomes this credential iff the credential is sound and of this presentation; so there is at most one. |
| `Rulings.BindRules` | internal/pipeline/check_device_binding.go:27-61 | Step 6 binds an mdoc, and an SD-JWT iff policy and query demand it; otherwise it skips. |
| `Rulings.RevokeRules` | internal/pipeline/check_revocation.go:22-129 | Step 5 of a verified credential: the checker is asked with reference, signer, fail-open choice and window as policy and credential say; what it answers decides refusal, code, skip and recorded status. |
| `Soundness.AnsweringExactly` | internal/pipeline/check_issuer_authenticity.go:298-306 | The answers of the mdoc issuer callback are the one sequence in which each question the library asks is answered by issuer resolution. |
| `Soundness.DemandedExactly` | internal/pipeline/check_issuer_authenticity.go:274-281 | Key binding is demanded iff the policy does not waive it and the first query entry of the id, if any, requires it. |
| `Soundness.MdocIssuer` | internal/pipeline/check_issuer_authenticity.go:298-306 | Under the contract of the mdoc library the recorded issuer is the one the callback resolved for the one document. |
| `Soundness.AuthOrDeferred` | internal/pipeline/check_issuer_authenticity.go:36-59 | Step 3 leaves a credential authentic, or deferred to step 4 or step 6, and to no other step. |
| `Soundness.PassesBinding` | internal/pipeline/check_device_binding.go:27-61 | A credential deferred by step 3 never passes steps 4 and 6, although step 5 lets it by. |
| `Soundness.BindKeeps` | internal/pipeline/check_device_binding.go:27-61 | Device binding passes only with the holder bound, and for SD-JWT only if policy and query demand it; it touches no evidence. |
| `Soundness.RevokeSettles` | internal/pipeline/check_revocation.go:22-129 | An authentic credential that passes step 5 has its status recorded as the checker answered, conclusive or skipped as policy allows, and unchanged evidence. |
| `Soundness.ReadsItsOwnFormat` | internal/pipeline/credential.go:56-85 | Of an authentic credential, claims, type, status reference and validity window are those of the verified credential of its own format. |
| `Context.Credential.Claims` | internal/pipeline/credential.go:56-73 | An SD-JWT's claims are its own map, by reference; an mdoc's are a fresh map with a copy of each namespace. |
| `Soundness.ReuseExact` | internal/pipeline/check_combined.go:20-31 | The nested loop finds a pair iff two credentials of different query ids have equal payloads, and then the first such pair in loop order. |
| `Soundness.ReuseRow` | internal/pipeline/check_combined.go:20-31 | A fail of step 9 names the ids of the first such pair. |
| `Soundness.NothingPresented` | internal/pipeline/check_parse.go:22-54 | An empty response fails step 2 as an invalid response. |
| `Soundness.LastRows` | internal/pipeline/check_assemble_forward.go:15-57 | Steps 8, 9 and 10 pass iff the query matched, no payload is reused, and delivery and disposal met no error; step 10 erases the state and the others leave it. |
| `Checks.VctOfFirst` | internal/pipeline/check_issuer_authenticity.go:247-255 | The type looked up for an SD-JWT is that of the first query entry of its id that names one, else none. |
| `Checks.DoctypeOfFirst` | internal/pipeline/check_issuer_authenticity.go:257-265 | The same for mdoc document types. |
| `Checks.BindingOfFirst` | internal/pipeline/check_issuer_authenticity.go:274-281 | The first query entry of an id decides whether holder binding is required; without one it is. |
| `RevocationPolicy.FailClosedSettles` | internal/pipeline/check_revocation.go:22-129 | Under fail-closed policy every credential of a verified run with a status reference has a conclusive non-revoked status, or a lifetime exemption the policy allowed. |
| `RevocationPolicy.RevocationRow` | internal/pipeline/check_revocation.go:22-129 | Of any run whose revocation row is not a fail: the row is skipped, never pass, iff some credential was skipped, one whose binding failure is still pending included. |
| `RevocationPolicy.SkippedNotPassed` | internal/pipeline/check_revocation.go:22-129 | Of a verified run the revocation row is skipped iff the status of some credential was not concluded, and pass otherwise. |
| `RevocationPolicy.RelaxingKeepsVerified` | internal/policy/policy.go:23-31 | Relaxing only revocation_fail_closed never turns a verified run into a failed one, and leaves the same credentials. |
| `RevocationPolicy.RevokeRelaxed` | internal/pipeline/check_revocation.go:22-129 | Of one credential: step 5 passes under the relaxed policy whenever it passed under the strict one. |
| `FlattenNames.FlattenNames` | internal/pipeline/report.go:70-85 | For every nested claim map and every iteration order, the loop returns the one sorted sequence of dotted leaf names. |
| `FlattenNames.SortedUnique` | internal/pipeline/report.go:70-85 | A sorted sequence of names is determined by its multiset, so no order of the map can show. |
| `FlattenNames.LeqExactly` | internal/pipeline/report.go:70-85 | The order of the sort: by the first character that differs, a name before its extensions. |
| `FlattenNames.BagTake` | internal/pipeline/report.go:70-85 | Whichever key the loop takes first, the names collected are the same. |
| `FlattenNames.NamesAreLeafPaths` | internal/pipeline/report.go:70-85 | The names are exactly the dotted paths that end in a leaf. |
| `FlattenNames.ReportIsValueFree` | internal/pipeline/report.go:49-52 | Claim maps of equal key structure give identical reports, whatever their values. |
| `FlattenNames.SortStrings` | internal/pipeline/report.go:70-85 | The sort yields a sorted permutation. |
| `Report.Append` | internal/pipeline/report.go:40-45 | Appending writes in place while there is spare capacity, else into a fresh array; no other cell changes. |
| `Report.Builder.Add` | internal/pipeline/report.go:40-45 | Adds one row with its detail capped, and never writes a cell below the old length, in the old array or a grown one. |
| `Report.Builder.AddCredential` | internal/pipeline/report.go:49-52 | Adds a summary with sorted claim names only. |
| `Report.Builder.SetPolicyBranch` | internal/pipeline/report.go:56 | Records one branch in the shared map and leaves everything else. |
| `Context.Credential.VerifySDJWT` | internal/pipeline/check_issuer_authenticity.go:61-105 | Updates the credential as the value-level verification says, on every path, the signing-time mismatch included. |
| `Context.Credential.VerifyMdoc` | internal/pipeline/check_issuer_authenticity.go:130-172 | The same for mdoc: the library is given the answers of its issuer callbacks, and exactly one document is accepted. |
| `Context.Credential.AnswerCallbacks` | internal/pipeline/check_issuer_authenticity.go:298-306 | However often the library calls back, each call is answered by issuer resolution at the signing time it names, and the credential records the last issuer resolved. |
| `Context.Credential.Authenticate` | internal/pipeline/check_issuer_authenticity.go:36-59 | One turn of step 3: verified, failed here, or deferred to the step that owns the error. |
| `Context.Credential.CheckStatus` | internal/pipeline/check_revocation.go:22-129 | One turn of step 5: status fields written and the policy switch taken in its order. |
| `Context.Credential.BindDevice` | internal/pipeline/check_device_binding.go:27-61 | One turn of step 6. |
| `Context.RunIssuerAuthenticity` | internal/pipeline/check_issuer_authenticity.go:36-59 | The loop over heap objects leaves the credentials, and returns the row, of the scan on values. |
| `Context.RunDataIntegrity` | internal/pipeline/check_data_integrity.go:16-24 | The same for step 4, which changes nothing. |
| `Context.RunRevocation` | internal/pipeline/check_revocation.go:22-129 | The same for step 5, with its skipped row. |
| `Context.RunDeviceBinding` | internal/pipeline/check_device_binding.go:27-61 | The same for step 6, with its skipped row. |
| `Context.RunUserBinding` | internal/pipeline/check_user_binding.go:22-34 | The same for step 7, which changes nothing. |
| `Context.RunParse` | internal/pipeline/check_parse.go:22-54 | Builds fresh, distinct credentials in list order up to the first that does not parse; an empty list fails. |
| `Context.RunQueryFulfilment` | internal/pipeline/check_query_fulfilment.go:20-60 | Hands the matcher one candidate per credential, in order, and fails iff it is not satisfied. |
| `Context.RunCombinedChecks` | internal/pipeline/check_combined.go:20-31 | The counter loops return the first reused pair in loop order. |
| `ContextChecks.RunResponseIntegrity` | internal/pipeline/check_response_integrity.go:21-43 | Step 1 by flow: presentations and, outside the browser flow, the response code are taken over; otherwise nothing changes. |
| `Forwarding.CopyWithRow` | internal/pipeline/check_assemble_forward.go:34-56 | The copy to deliver has its own fresh rows array holding the builder's rows and one more, and is marked verified. |
| `Forwarding.CollectCredentials` | internal/pipeline/check_assemble_forward.go:15-33 | One summary and one result per credential, in order; a result holds the credential's own claim map or a fresh copy. |
| `Forwarding.Forward` | internal/pipeline/check_assemble_forward.go:34-56 | One more delivery, which read the claims as they were before the call; afterwards the claim maps delivered are empty and everything the context reaches is erased. |
| `Forwarding.HandOff` | internal/pipeline/check_assemble_forward.go:34-56 | Delivery happens with that copy, and the sink reads the claims of the credentials as step 10 found them; a delivery or disposal error becomes the handoff fail; either way the payloads, the raw body, the credentials' claim maps and those of the result are erased. |
| `Forwarding.MarkErased` | internal/pipeline/finalize.go:55-76 | Memory that Zero has wiped reads as the erased state: payloads zero, claims empty, nothing else changed. |
| `Forwarding.RunAssembleForward` | internal/pipeline/check_assemble_forward.go:15-57 | Every credential is summarised and forwarded in order; the state of the run is then the erased one, in memory as on values. |
| `ContextChecks.RunCheck` | internal/pipeline/pipeline.go:180-212 | Each shipped check over a context does to state, memory and report what it does on values. |
| `Engine.AddDelivered` | internal/pipeline/report.go:40-45 | Adding the row of step 10 makes the builder's report the delivered one without writing the delivered rows. |
| `Engine.EndVerified` | internal/pipeline/report.go:62-65 | If the builder's report was the delivered one, the report returned still is, in arrays of its own, verified and without a code. |
| `Engine.RunLoop` | internal/pipeline/pipeline.go:180-212 | The loop stays on the run on values up to its first fail, and the recorder's trace tells of the rows. |
| `Engine.Run` | internal/pipeline/pipeline.go:180-212 | Engine.Run returns the report and leaves the state of the run on values; if the last check is step 10 and the run is verified, the report seen by the sink equals the returned one field by field, in arrays neither writes of the other's, the claims delivered are those step 10 found, and no attribute value is left; the recorder's (name, outcome) trace equals the rows. |
| `Engine.RunProduction` | internal/pipeline/pipeline.go:180-212 | The production engine over a fresh context and the raw body of a response: verified means sound credentials, whose claims are what was delivered, an identical delivered report, and no attribute value left in the context or the raw body. |
| `Finalization.ZeroBytes` | internal/pipeline/finalize.go:78-82 | The window becomes zero and no other byte of the backing array changes. |
| `Finalization.ClearMap` | internal/pipeline/finalize.go:84-89 | The map ends empty, whatever the iteration order. |
| `Finalization.Zero` | internal/pipeline/finalize.go:55-76 | Under any aliasing of presentations, credentials and result, all payload bytes and the raw body end zero and every claim map empty. |
| `Finalization.DeliverAndDispose` | internal/pipeline/finalize.go:32-51 | One delivery, then the session is kept iff the result is verified with a response code and deleted otherwise; the first error is returned. |
| `Finalization.Finalize` | internal/pipeline/finalize.go:32-51 | On every return path the context's memory and the result's claim maps are erased; the sink got the result once and read its claims as they were on entry, so erasing before delivering would break the contract; report contents are unchanged. |
| `TrustResolution.Valkey.AnchorsFor` | internal/anchors/valkey.go:66-129 | The cache read with its loops: anchors found, empty, or stale, as the function of the cached records says. |
| `TrustResolution.Valkey.Freshness` | internal/anchors/valkey.go:162-179 | A type is reported fresh iff its record can be read, is not stale upstream and is within the grace; so what verification takes as fresh is reported fresh under every grace not negative. |
| `TrustResolution.StaleLookupExactly` | internal/anchors/valkey.go:66-129 | A lookup is stale iff its entry is marked stale upstream or past its time, or there is none and the type's freshness record is unreadable, marked stale, or at its time; grace plays no part, and the error is the bare sentinel. |
| `TrustResolution.AnchorsExactly` | internal/anchors/valkey.go:66-129 | A lookup answers with anchors iff it is not outdated, could be read and every certificate parses; they are the entry's, field by field, under the type asked for, and none where a synced type has no entry. |
| `TrustResolution.ResolveByTypesLoop` | internal/pipeline/check_issuer_authenticity.go:176-194 | The loop with its last error returns what the recursive search returns. |
| `TrustResolution.StaleStopsTheSearch` | internal/pipeline/check_issuer_authenticity.go:176-194 | Cache-expired is answered iff a consulted lookup was stale, and that lookup is the last one made. |
| `TrustResolution.FirstDecisiveType` | internal/pipeline/check_issuer_authenticity.go:176-194 | A key is returned iff some type yields it and every earlier type was refused on a cache that was not stale. |
| `IssuerSearch.TerritoryDecides` | internal/pipeline/check_issuer_authenticity.go:176-194 | Of the territories of a chain the first that is not empty decides, by its error or by the path check, and none is tried after it. |
| `IssuerSearch.ResolvesExactly` | internal/pipeline/check_issuer_authenticity.go:201-227 | An issuer is resolved iff the first type of its class that is not refused yields it and it is accredited for the use case of the class, if it has one. |
| `IssuerSearch.SignerExactly` | internal/pipeline/check_issuer_authenticity.go:229-245 | A status signer's key is trusted iff the status counterparts, or then the types themselves, yield it at the current time, and it is accredited for the same use case. |
| `IssuerSearch.CounterpartAt` | internal/pipeline/errclass.go:151-160 | The counterparts keep the order of the types. |
| `TrustResolution.IssuerResolutionFailsClosed` | internal/pipeline/check_issuer_authenticity.go:201-227 | A returned key is accredited for the use case of its type and no consulted lookup was stale; the answer is cache-expired iff one was; an empty type list is untrusted. |
| `TrustResolution.ProductionStaleExactly` | internal/anchors/valkey.go:66-129 | Over the production cache, issuer resolution answers cache-expired iff some lookup it consulted was degraded, or missing under a type that is not fresh. |
| `Attribution.OutageExactly` | internal/pipeline/errclass.go:16-75 | Step 3 reports anchor-unavailable iff the credential is an SD-JWT, its issuer resolution met a stale cache, and that error carries no malformed, integrity or binding sentinel; an mdoc never makes it say so. |
| `Attribution.ProductionOutageExactly` | internal/pipeline/check_issuer_authenticity.go:61-172 | The same over the production cache, in terms of the cache records of the lookups made. |
| `Attribution.StaleErrorExactly` | internal/pipeline/check_issuer_authenticity.go:61-172 | The error that step 3 attributes carries the stale-cache sentinel iff an SD-JWT's issuer resolution did. |
| `Findings.OutageBlamedOnCredential` | internal/pipeline/check_issuer_authenticity.go:148-172 | An mdoc whose library formats the callback's error fails as untrusted whatever the callback met. |
| `Findings.StaleDeploymentFails` | internal/pipeline/check_issuer_authenticity.go:148-172 | A deployment with a stale cache in which the callback of an mdoc answers cache-expired and the library hides it. |
| `Findings.BlamedIsNotAccepted` | routes/wallet_error.go:67-86 | For that code the wallet is told that the credential was not accepted. |
| `CredentialTrust.CredentialTrustMap.ReadsFirstMatch` | internal/pipeline/errclass.go:134-174 | Issuance and UseCaseFor, separate scans, read the same class: the first that lists the type. |
| `CredentialTrust.CredentialTrustMap.ReadsFallback` | internal/pipeline/errclass.go:134-174 | A type no class lists is unscoped and vouched for by the fallback. |
| `CredentialTrust.CredentialTrustMap.MatchedOrNot` | internal/pipeline/errclass.go:134-174 | Every type is in one of those two cases. |
| `CredentialTrust.Status` | internal/pipeline/errclass.go:151-160 | The status counterparts of the issuance types in order, followed by exactly the issuance list. |
| `CredentialTrust.CounterpartsExact` | internal/pipeline/errclass.go:151-160 | A status type is offered iff some issuance type has it as its counterpart. |
| `CredentialTrust.ParseCredentialTrust` | internal/pipeline/errclass.go:116-130 | The merged map answers with the first configured matching class, else the default class, else the effective fallback. |
| `ErrClass.ClassifiedByCarried` | internal/pipeline/errclass.go:16-75 | Classification depends only on which sentinels an error carries. |
| `ErrClass.WrappingKeepsClass` | internal/pipeline/check_response_integrity.go:68-87 | Wrapping an error to any depth changes neither its step nor its code. |
| `ErrClass.IsCarried` | internal/pipeline/errclass.go:16-75 | The error-matching test finds a sentinel iff it lies anywhere under the wrapping. |
| `ErrClass.OwnerExactly` | internal/pipeline/errclass.go:16-75 | A verification error belongs to the step and code of the first group it carries a sentinel of: malformed, tampered, unbound, stale cache, out of date, certificate out of date, else untrusted. |
| `ErrClass.ResponseCodeExactly` | internal/pipeline/check_response_integrity.go:68-87 | The code of a step 1 failure: a wallet error first, then a state mismatch, then a session used before. |
| `ErrClass.FaultCodeExactly` | internal/pipeline/errmap.go:15-30 | The code of an error a check returns, by the sentinels it carries. |
| `ErrClass.WalletErrorFound` | internal/pipeline/check_response_integrity.go:53-66 | The wallet's own error is found iff one lies under the wrapping, and it is one of those. |
| `FailCodes.Registry.RegisterReasons` | reasons.go:28-60 | The first call rates every reason of the service without touching built-in ones; later calls change nothing. |
| `FailCodes.RatedAndTold` | routes/wallet_error.go:67-86 | Every code a step can give is rated; the wallet is told of a refusal for all but anchor-unavailable and handoff-failed; "not accepted" is said of the trust refusals alone. |
| `FailCodes.FailedStep` | internal/pipeline/pipeline.go:180-212 | The fail code of a run that is not verified is the code of its last executed step, and one of that step's codes. |
| `FailCodes.StepCoded` | internal/pipeline/errclass.go:16-75 | Whatever a shipped check answers, a fail carries one of the codes listed for its step. |
| `FailCodes.WalletIsToldRight` | routes/processor_pipeline.go:115-123 | For every failed run the code is rated, and the wallet is told "declined" iff step 1 saw a wallet error, "not accepted" iff a trust refusal, nothing iff the fault is the service's. |
| `Keyspace.PrefixForm` | internal/keyspace/keyspace.go:17-23 | A normalised prefix is empty or ends in exactly one colon. |
| `Keyspace.NewExactly` | internal/keyspace/keyspace.go:17-23 | A prefix is normalised to what lies between its outer white space without its last colons, and one colon; or to nothing. |
| `Keyspace.NewIdempotent` | internal/keyspace/keyspace.go:17-23 | Normalising twice is normalising once. |
| `Keyspace.KeysCollide` | internal/valkeystore/store.go:21-26 | For any ids and any prefix, two records share a key iff they are the same record or one session id spells out the other's marker. |
| `Keyspace.KeysDistinct` | internal/valkeystore/store.go:61-64 | Records of colon-free session ids never share a key. |
| `Keyspace.SpelledExactly` | internal/valkeystore/store.go:21-26 | Which marker, if any, the key of a session id spells out. |
| `Keyspace.ReachedExactly` | internal/valkeystore/store.go:61-64 | The records of minted ids that share a key with a given record are that record and the marker it spells out. |
| `ValkeyStore.RefinesSet` | internal/valkeystore/store.go:61-64 | Setting one key of the flat store sets one typed record and no other. |
| `ValkeyStore.RefinesDel` | internal/valkeystore/store.go:173-179 | Deleting one key deletes exactly the typed records it reaches, for any id. |
| `ValkeyStore.Valkey.Get` | internal/valkeystore/store.go:89-105 | A read of a record returns its live value; a session id with a colon in it can only read a marker. |
| `ValkeyStore.Valkey.SetNX` | internal/valkeystore/store.go:127-150 | Writes iff no live value is there, and tells which. |
| `ValkeyStore.Store.Save` | internal/valkeystore/store.go:69-82 | Refuses an empty id; otherwise one record is written with the session's own remaining time when that is shorter. |
| `ValkeyStore.Store.Load` | internal/valkeystore/store.go:89-105 | Fails closed on an unknown, expired or undecodable record; any id may be asked for, and one with a colon is never found. |
| `ValkeyStore.Store.ConsumeOnce` | internal/valkeystore/store.go:127-150 | Load, claim, save and roll back on the string keys do what the typed operation does, with a fault possible at each command. |
| `ValkeyStore.Store.MarkRequestObjectServed` | internal/valkeystore/store.go:156-162 | True for the first call only. |
| `ValkeyStore.Store.SaveResponseCode` | internal/valkeystore/store.go:167-169 | One index record under the code's lifetime. |
| `ValkeyStore.Store.DeleteSession` | internal/valkeystore/store.go:173-179 | For any id: removes the three records of that session and the marker that the id spells out, and no other. |
| `ValkeyStore.OperationsFrameOthers` | internal/valkeystore/store.go:127-179 | Consume and mark leave every record of another session as it was; a delete that takes effect removes exactly the marker its id spells out. |
| `ConsumeProtocol.AtMostOneWinner` | internal/valkeystore/store.go:127-150 | In every interleaving of any number of calls, of what the winners then do to the session, and of deletes by anyone, with faults at every command: when no delete reopens the session, at most one call returns it, and then its marker stands or the session is gone. |
| `ConsumeProtocol.SecondWinnerExactly` | internal/valkeystore/store.go:127-179 | Where no delete has reopened the session yet, a delete makes a second winner possible without any further delete iff it finds a call that will write the session back, or a call that has read it beside one that has won or will roll back. |
| `ConsumeProtocol.BothResponsesWin` | internal/valkeystore/store.go:106-150 | Two calls read the session; one claims, saves and disposes of it; then the other claims and saves as well. |
| `ConsumeProtocol.RetryWinsExactly` | internal/valkeystore/store.go:127-150 | When all calls ended without a winner and nothing was deleted, a retry wins iff the session is loadable and no call left its marker behind (a lost claim reply or a rollback without effect). |
| `ConsumeProtocol.LostClaimLocksOut` | internal/valkeystore/store.go:119-150 | A concrete run in which one lost reply of the claim locks the session out. |
| `ConsumeProtocol.AloneIsConsumeOnce` | internal/valkeystore/store.go:127-150 | The commands of one undisturbed call compose to the atomic operation. |
| `Requests.QueueTTLBounded` | internal/handoff/queue.go:60-65 | The payload lifetime is the configured one if that lies in (0, 24h], and else 24h. |
| `Requests.DeliverCommits` | internal/handoff/queue.go:77-110 | Payload and queue entry are committed together, the entry iff a webhook is set; a refused transaction changes nothing. |
| `Requests.RejectedChangesNothing` | routes/wallet.go:132-136 | A response that is not consumed changes no row, payload, queue entry or response code; one rejected as unknown or replayed changes nothing at all. |
| `Requests.CreateAgrees` | internal/sessions/creator.go:160-255 | A successful create leaves the same id in session store, token index and row; token and row expire after the effective lifetime, which is positive, never above the configured one, and the request's own when shorter. |
| `Requests.FailedRunDeletes` | routes/processor_pipeline.go:47-66 | After a run that was not verified the session is gone iff the report was saved, the failed result delivered and the delete took effect, or step 10 had deleted it before. |
| `Outcomes.AnsweredExactly` | routes/wallet.go:114-152 | What the response endpoint answers: unknown iff no live token leads anywhere, too large iff beyond the cap, processed iff the session can be read, has no live marker and its commands meet no error. |
| `Outcomes.ConsumedExactly` | internal/valkeystore/store.go:127-150 | A session is consumed iff it can be read, is not marked and no command fails; it is then marked for a whole lifetime and saved as consumed until its own expiry or a lifetime, whichever is first. |
| `Outcomes.AcceptedWhen` | routes/processor_pipeline.go:24-94 | A response is accepted iff its checks passed, no command failed and its redirect was built. |
| `Outcomes.AcceptedLeaves` | routes/processor_pipeline.go:24-94 | Everything an accepted response leaves: payload and row verified, the id queued iff a webhook is set; with a response code the session kept under it and the code leading to it, else session and markers gone; nothing else changes. |
| `Outcomes.RefusedLeaves` | routes/processor_pipeline.go:56-66 | Everything a refused response leaves when nothing fails on the way out: payload and row failed, the id queued iff a webhook is set, session and markers gone. |
| `Outcomes.CodesAfterPost` | routes/processor_pipeline.go:83-86 | After any response every code leads where it led, except the one that a verified and recorded run minted, which leads to its session for the code's own lifetime. |
| `Outcomes.ServedExactly` | routes/wallet.go:63-91 | The request object is served iff the session can be read, is not marked, the object is signed and no command fails; it is then marked for a whole lifetime. |
| `Outcomes.CreatedExactly` | internal/sessions/creator.go:160-255 | A create succeeds iff the engine minted a session with an id and no write failed. |
| `Requests.DisagreeExactly` | internal/pipeline/check_assemble_forward.go:34-56 | The payload delivered and the report saved say opposite things after a response iff step 10's delivery took effect, its reply or the disposal failed, the failed report was saved, and the failed result was not delivered over it. |
| `Requests.StatusContradictsExactly` | routes/wallet.go:114-152 | After the first response to a session the row's status contradicts its report iff the run was verified, its report was saved, the reply to that, the status, the response code or the redirect failed, and the endpoint's mark of failure took effect. |
| `Findings.VerifiedRunMarkedFailed` | routes/wallet.go:139-146 | A run after which the row says failed while report and queued payload say verified. |
| `Findings.FailedRunLeavesSession` | routes/processor_pipeline.go:47-66 | From a fresh store, a response whose run fails early and whose report is not saved leaves the session loadable behind its marker, and memory as it was. |
| `Findings.FailedRunDeliveredVerified` | routes/processor_pipeline.go:47-66 | From a fresh store, a response after which the report says failed while a live, queued payload says verified. |
| `Server.Queue.constructor` | internal/handoff/queue.go:60-65 | A lifetime outside (0, 24h] fails closed to 24h. |
| `Server.Queue.Deliver` | internal/handoff/queue.go:77-110 | One transaction on the shared store: both writes or neither. |
| `Server.RespondTokens.Resolve` | internal/sessions/respondtokens.go:61-70 | A live token gives the id stored under it; everything else fails closed. |
| `Server.RespondTokens.Put` | internal/sessions/respondtokens.go:55-57 | One token record, under the given lifetime. |
| `Server.App.Finalize` | internal/pipeline/finalize.go:32-51 | The disposal branches against the real store do what the operation on values does, and memory is erased on every path. |
| `Server.App.Process` | routes/processor_pipeline.go:24-94 | Run, report, status, failure disposal and response code are written in order, with every early return; memory is erased iff the path reaches Finalize and untouched otherwise. |
| `Server.App.WalletResponse` | routes/wallet.go:114-152 | Resolve, body cap, consume, process: stores and answer are those of the operation on values, for every fault. |
| `Server.App.RequestObject` | routes/wallet.go:63-91 | Load, mark, sign, set status, for any id in the path. |
| `Server.App.Delete` | routes/internal.go:312-321 | Whatever id the path holds, the store does with it what the operation on values does. |
| `Server.App.Create` | internal/sessions/creator.go:160-255 | The three writes in order, with every early return. |
| `TimedRuns.SingleUse` | routes/wallet.go:63-152 | Over every allowed run of create, GET, POST, DELETE and ticks with faults, in which no delete spells out the marker of a loadable session that was used, no session reaches the processor twice and none has its request object served twice. |
| `TimedRuns.MarkersOutliveSessions` | internal/valkeystore/store.go:69-105 | The exact condition: at every point of an allowed run each loadable session that was processed or served has its live marker, iff no delete of the run spells out such a marker. |
| `TimedRuns.RepeatsExactly` | routes/wallet.go:63-152 | After any allowed run, whatever was deleted, some session can be used again iff one is loadable without its marker, and for a response routed by a live token. |
| `Findings.DeleteReopens` | routes/internal.go:312-321 | A run in which the delete of x:consumed makes x be processed twice. |
| `Findings.ReopeningAllowed` | routes/internal.go:312-321 | That run meets every hypothesis but the one on deletes. |
| `TimedRuns.RoutingAndQueue` | internal/sessions/respondtokens.go:55-70 | Over every allowed run, whatever was deleted, a live token resolves to the session minted with it, and every queued id was committed with its payload. |
| `TimedRuns.ConsumeKeeps` | internal/valkeystore/store.go:127-150 | Consuming keeps the invariant and never succeeds on a session processed before. |
| `TimedRuns.ResaveKeeps` | internal/pipeline/finalize.go:32-51 | Saving a session again instead of deleting it keeps the markers ahead of its expiry. |
| `TimedRuns.StepKeeps` | routes/wallet.go:63-152 | Every action but a harmful delete keeps the inductive invariant. |
| `EndToEnd.RunAgrees` | routes/processor_pipeline.go:24-94 | The stores see a verified run iff the ten checks verify, when the errors the checks see are those of the store commands. |
| `EndToEnd.AcceptedIsFirstAndSound` | routes/wallet.go:114-152 | At any point of any allowed run whose deletes are harmless, an accepted response is the first for its session, was routed by the token minted with it, all its credentials are sound, and its response code, if it minted one, leads to that session. |
| `StatusList.OrSetsOne` | internal/testwallet/statuslist.go:64-70 | Setting one bit of a byte sets that bit and no other. |
| `StatusList.RevokedSetsOne` | internal/testwallet/statuslist.go:64-70 | Revoking sets exactly that index of the packed list, if the list has it. |
| `StatusList.StatusLists.NewRef` | internal/testwallet/statuslist.go:55-61 | Every reference handed out is new; no list changes. |
| `StatusList.StatusLists.Revoke` | internal/testwallet/statuslist.go:64-70 | After any sequence of calls a bit is set iff its index was revoked and lies within the list; an unknown list or an index past the end changes nothing. |

## Left out

- Cryptography, certificate parsing, JWE, CBOR, DCQL matching and OpenID4VP parsing are library calls: function parameters with the contracts named above.
- HTTP wiring, authentication of the internal API, configuration, readiness, logging, metrics and spans; of the recorder only the trace of (name, outcome) pairs is modelled, not latencies.
- Redirect URL and browser request construction, with the require_signed_dcapi switch, live in the engine library; a failing redirect is a fault of `Server.App.Process`.
- The status reference recorder and the fields of a session that no branch reads (correlation id, client id, return URI).
- Finalization.Zero: nested claim maps are values, so emptiness is stated of the maps the code clears and says nothing of inner maps, which the code does not clear either; the inner copies that Claims makes of mdoc namespaces are such.
- Engine.Run: the libraries hand over values, which the model puts in newly allocated memory; what a library itself keeps is out of sight.
- PipelineRun.ReportShape: the texts of spec references are transcribed without section signs.
- Server.App.Process: the pipeline's first nine steps enter as their result and the run's attribute memory as a parameter; `EndToEnd.RunAgrees` ties that result to the run of the ten checks.
- ValkeyStore.Store.ConsumeOnce: asked only for ids the service minted, which the routing index returns; a colon in such an id is excluded.
- Server.App.Create: the identity of the minted session, its token and whether the engine minted it at all are parameters.
- ConsumeProtocol.AtMostOneWinner: marker expiry inside the run, and deletes of the id that spells out the marker, are not covered there; `TimedRuns` covers both for atomic requests.
- StatusList.StatusLists.Revoke: a negative index panics in the original and is excluded.
- FailCodes.WalletIsToldRight: the rating words of the platform kit and the JSON body are not modelled, only which of the outcomes the wallet is told.
- TrustResolution.Valkey.AnchorsFor: the cache is a snapshot, the same throughout one resolution.
- Postgres procedures and the JSON encoding of sessions, envelopes and policies: each command is its atomic effect, with a fault before or after it.
- Health, trust-status rendering and the rest of the test wallet would add only one-branch members.
