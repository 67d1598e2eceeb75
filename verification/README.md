# Verification of the registration service

A Dafny model of the three parts of the registration service that carry its hard promises, with
proofs about them:

1. **The life of a UserSignup** — creating, reactivating and reading it, the phone and activation code
   calls, the audit of its claims, and the retry loop all writes run in. The calls are methods that change
   the host store field by field; each is proved against a function that says what it decides from the
   UserSignup it reads. The theorems are about *runs* of those functions, from before the UserSignup exists: any sequence of calls,
   with writes of other controllers in between; and about arbitrary *interleavings* of requests on one versioned object.
2. **The API proxy** — the WebSocket bearer-token swap over base64url (section 5 of RFC 4648, unpadded as
   in section 3.2), the path parser, the merge of bindings and binding requests, the choice of the
   impersonated identity, the header clean-up and the director.
3. **The header-list tokenizer** of the CORS preflight handler.

`dafny verify dfyconfig.toml` checks everything. A Go string is a `string` whose `char`s are its bytes.

## How the files fit together

| files | content |
|---|---|
| `Text`, `Sorting`, `Space`, `Decimal`, `Base64Url`, `Utf8` | the library functions the code leans on |
| `HeaderList`, `HeaderListProofs`, `HeaderListExact` | the tokenizer, its refinement on header lists, its exact limits on all byte strings |
| `HttpRequest`, `WebSocketToken`, `ReverseProxy`, `WorkspacePath` | request rewriting in the proxy |
| `BindingMerge`, `Members`, `AccessDecision` | bindings, member clusters, who is impersonated |
| `DefaultTarget` | the default cluster and namespace |
| `UserSignups`, `SocialEvents`, `Audit`, `Verification`, `PhoneNumbers` | the UserSignup and what each call decides |
| `PollUpdate`, `SignupService`, `VerificationService` | the calls as they run against the store |
| `Runs`, `StepEffects` | runs of calls, one at a time, and what each step does |
| `SendRate`, `GuessBudget`, `Acceptance`, `PhoneRecheck`, `History` | theorems over all runs |
| `OptimisticWrites`, `Ledger`, `AttemptCounts`, `SendCounts` | theorems over all interleavings, and what the two counters are worth under them |

## What was found about the code

- **One number's code can verify another.** Every written call for a code writes its number's hash, also when
  no message goes out, while the pending code stays that of an earlier call. So the check before a code is
  accepted is about the number the code went to exactly when the last written call was for a number with the
  same hash (`PhoneRecheck.SentNumberIsRecheckedExactly`); `PhoneRecheck.OneNumbersCodeVerifiesAnother` is a run
  in which it is not.
- **Guesses that nothing bounds.** The configured limit bounds the wrong answers between resets exactly when it is at
  least one, the guessing starts with a UserSignup, and no activation call that finds its code invalid runs
  out of tries (`GuessBudget.LimitIsKeptExactly`). With a limit below one, `checkAttempts` still lets an
  activation code through while no counter is stored (`GuessBudget.OneGuessIsFree`). Without a UserSignup the
  call is a signup, which stores and counts nothing when the code is wrong; and while writes fail, a UserSignup
  gets the answer "invalid" with nothing stored (`VerificationService.AnswerAndEffect`). Either way any number
  of codes is answered (`GuessBudget.GuessesAreUnbounded`).
- **Counts collapse under concurrency.** The closures write counters that were read before the closure. No
  update is lost as a write, but two wrong activation codes tried at once raise the attempts counter by one
  (`AttemptCounts.CountsCanCollapse`), and two calls for a code at once the send counter, so both messages go
  out when one was left (`SendCounts.SendsCanCollapse`). A counter is as far from the number of recorded
  attempts or messages as the chain of reads behind it spent tries too many, less what it missed
  (`AttemptCounts.CountIsKeptExactly`); the send counter has no such tries and is exact only when no call
  missed another's message (`SendCounts.SendCountIsKeptExactly`). The send and guess bounds are therefore
  stated for one request at a time.
- **One wrong code can count five times.** `attemptsMade++` sits inside the retried closure, so the counter
  rises by the number of tries that find the code invalid (`PollUpdate.ActivationIsCounted`), which is one
  exactly when one try does (`PollUpdate.WrongCodeCountsOnceExactly`). The bounds hold since the counter never
  says less than the recorded answers.
- **An error about a code that was applied.** The complaint of a failed try outlives it, so the call can
  approve the user and report an error (`VerificationService.AnswerAndEffect`).
- **A stray byte takes a capital.** A byte outside the header alphabet is dropped but clears the tokenizer's
  case flag. "Split, then canonicalise" is what the loop computes on cleaned text exactly when no such byte
  stands where a capital is due (`HeaderListExact.RefinementExactly`).
- **Texts that look like a hash.** The in-use check treats any text that ends in 32 hexadecimal digits as a
  hash. It agrees on a text and on its hash for all others, so for every E.164 number
  (`PhoneNumbers.AgreementExactly`).
- **Impersonation keys in other writings.** Stripping deletes the canonical form of a key. It removes all
  impersonation headers exactly when all are written canonically, as `net/http` writes what it reads
  (`ReverseProxy.StripExactly`, `ReverseProxy.OnlyTheChosenUserIsImpersonated`).
- **Credentials of the other kind are forwarded.** The director replaces the bearer subprotocols of a WebSocket request
  and the bearer header of any other; a header of the other kind goes out as it came
  (`ReverseProxy.OnlyOwnCredentialsExactly`).
- **Unreachable branches.** The conditions in the path parser on fewer than three segments never hold
  (`WorkspacePath.SplitAtMarker`).
- **Request-only entries count as access.** A binding request that made no SpaceBinding puts its user on the
  workspace's list, and being on the list decides the identity
  (`AccessDecision.OwnIdentityExactly`, `AccessDecision.UnboundUserActsAsThemselves`).

## Model

| member | source | states |
|---|---|---|
| HeaderList.ParseHeaderList | pkg/proxy/cors.go:96-139 | the byte loop with its buffer and case flag returns what the word-by-word reading of the text gives, on every byte string |
| HeaderListProofs.TokensOfHeaderList | pkg/proxy/cors.go:95-139 | on letters, digits, `-`, `_`, `.`, space and comma the result is the text split at runs of separators, each name canonicalised |
| HeaderListProofs.DroppedByteCostsTheCapital | pkg/proxy/cors.go:110-136 | "a" gives "A" and "!a" gives "a", so the alphabet matters |
| HeaderListExact.RefinementExactly | pkg/proxy/cors.go:96-139 | on every byte string the loop is "drop stray bytes, split, canonicalise" if and only if no stray byte takes a due capital |
| HeaderListProofs.TokensConserveLegalBytes | pkg/proxy/cors.go:110-136 | on every byte string the tokens put together are the legal bytes of the input up to case, none lost or repeated; no token is empty |
| HeaderListProofs.TokensIgnoreCase | pkg/proxy/cors.go:110-136 | texts that differ only in case give the same tokens |
| HeaderListProofs.TokensOfJoin | pkg/proxy/cors.go:57 | on every byte string, reading the list that is sent back canonicalises each of its names |
| HeaderListProofs.TokensRoundTrip | pkg/proxy/cors.go:57 | on header lists, reading the list that is sent back gives the same tokens |
| Base64Url.DecodeOfEncode | pkg/proxy/proxy.go:790 | decoding undoes encoding for every byte sequence (unpadded base64url) |
| Base64Url.BlockKeepsTheNumber | pkg/proxy/proxy.go:790 | the four digits of a block are those of the number its three bytes stand for, most significant first (section 4 of RFC 4648) |
| Base64Url.KnownEncodings | pkg/proxy/proxy.go:790 | a test vector of section 10 of RFC 4648, and the two digits of the URL-safe alphabet |
| Base64Url.DecodedExactly | pkg/proxy/proxy.go:790 | a text is decoded if and only if, line breaks aside, it holds digits alone and no single one is left over |
| Base64Url.LineBreakIsSkipped | pkg/proxy/proxy.go:790 | a line break anywhere in the text makes no difference, as in Go's decoder |
| Utf8.ValidUtf8Exactly | pkg/proxy/proxy.go:794 | the check passes exactly the encodings of sequences of characters, no surrogates among them (section 3 of RFC 3629) |
| Space.TrimSpaceStable | pkg/proxy/proxy.go:782 | a trimmed text is trimmed, on UTF-8 white space |
| Space.TrimmedExactly | pkg/proxy/proxy.go:782 | trimmed means that no white-space rune stands at either end |
| Space.TrimSpaceTakesSpace | pkg/proxy/proxy.go:782 | trimming takes white-space runes away at both ends and nothing else |
| Utf8.SpaceRunesExactly | pkg/proxy/proxy.go:782 | what is trimmed as one rune is the UTF-8 encoding of a character with the White_Space property |
| WebSocketToken.ExtractTokenFromWebsocketRequest | pkg/proxy/proxy.go:776-808 | the nested loops return what one scan over all trimmed subprotocols gives, with the same errors in the same order |
| WebSocketToken.ReplaceTokenInWebsocketRequest | pkg/proxy/proxy.go:810-825 | the header holds one value, the subprotocols with the new token in every bearer entry; no other header changes |
| WebSocketToken.ExtractedExactly | pkg/proxy/proxy.go:776-808 | a token is extracted if and only if exactly one subprotocol is a bearer entry and it decodes to that non-empty UTF-8 token |
| WebSocketToken.NotExtractedExactly | pkg/proxy/proxy.go:776-808 | each way to find no token has its own error, with its exact condition |
| WebSocketToken.ProtocolsOfAllValues | pkg/proxy/proxy.go:779-781 | the subprotocols are those of all header values, in order |
| WebSocketToken.SwapKeepsOtherProtocols | pkg/proxy/proxy.go:810-825 | reading the swapped header gives the same subprotocols in the same order, only bearer entries replaced |
| WebSocketToken.ExtractAfterSwap | pkg/proxy/proxy.go:776-825 | after a swap the new token is extracted if and only if the request had exactly one bearer entry |
| WebSocketToken.SwapIsReadBack | pkg/proxy/proxy.go:776-825 | if extraction succeeds, swapping in any non-empty UTF-8 token and extracting again returns that token |
| HttpRequest.CanonicalTwice | pkg/proxy/proxy.go:623 | a canonical header key stays as it is |
| HttpRequest.CanonicalKeepsLower | pkg/proxy/proxy.go:620-623 | canonicalising a header key changes only its case |
| HttpRequest.CanonicalExactly | pkg/proxy/proxy.go:623 | a key that may be a header name gets upper case at the start and after a dash and lower case elsewhere; any other key is left alone (section 5.6.2 of RFC 9110) |
| ReverseProxy.StripInvalidHeaders | pkg/proxy/proxy.go:615-628 | deleting while ranging over the map, in any order, leaves the header without the canonical form of each impersonation key |
| ReverseProxy.StripExactly | pkg/proxy/proxy.go:615-628 | exactly the canonically written impersonation headers are removed, so all of them if and only if all were canonical; everything else stays |
| ReverseProxy.Director | pkg/proxy/proxy.go:680-712 | the whole new request: scheme, hosts, path, query and headers |
| ReverseProxy.SingleJoiningSlashMeets | pkg/proxy/proxy.go:762-772 | the joined path has exactly one slash where the two paths meet |
| ReverseProxy.OnlyTheChosenUserIsImpersonated | pkg/proxy/proxy.go:615-712 | after stripping and the director `Impersonate-User` names the chosen user, and it is the only impersonation header if and only if the user's keys were canonical |
| ReverseProxy.CredentialsAreTheImpersonators | pkg/proxy/proxy.go:690-711 | the bearer header or every bearer subprotocol carries the impersonator's token; headers the director does not own arrive unchanged, and it adds none but its own |
| ReverseProxy.OnlyOwnCredentialsExactly | pkg/proxy/proxy.go:703-708 | no credential but the impersonator's goes out if and only if a WebSocket request brought no bearer header of its own, or another request no bearer subprotocols |
| WorkspacePath.GetWorkspaceContext | pkg/proxy/proxy.go:486-532 | the two-stage parser returns plugin and workspace and rewrites the path, or fails with the same error, the path then being what the first stage left |
| WorkspacePath.SplitAtMarker | pkg/proxy/proxy.go:494-522 | behind a marker there are at least three segments, so the fewer-than-three branches are unreachable |
| WorkspacePath.PrintOfParse | pkg/proxy/proxy.go:486-532 | printing what was parsed gives the original path back |
| WorkspacePath.ParsedNamesStandInThePath | pkg/proxy/proxy.go:486-532 | with both names found the path is `/plugins/`, plugin, `/workspaces/`, workspace, new path |
| WorkspacePath.ParseOfBoth | pkg/proxy/proxy.go:486-532 | parsing a printed path with plugin and workspace returns them, and fails exactly when nothing follows and a needed name is missing |
| WorkspacePath.ParseOfPlugin | pkg/proxy/proxy.go:491-507 | parsing a printed path with a plugin alone returns it, and fails exactly on a blank name with nothing behind it |
| WorkspacePath.ParseOfWorkspace | pkg/proxy/proxy.go:508-529 | parsing a printed path with a workspace alone returns it, and fails exactly when nothing follows |
| WorkspacePath.RefusedExactly | pkg/proxy/proxy.go:486-532 | the paths that are refused, all of them and no others |
| BindingMerge.AlreadyInBindingList | pkg/proxy/handlers/spacelister_get.go:341-348 | the search finds a binding that refers to the request if and only if there is one |
| BindingMerge.GenerateWorkspaceBindings | pkg/proxy/handlers/spacelister_get.go:271-336 | the result is sorted by user and a permutation of the merged list; it fails if and only if an own-space binding has a request label with an empty name or namespace |
| BindingMerge.MergedExactly | pkg/proxy/handlers/spacelister_get.go:271-336 | one entry per SpaceBinding and one per distinct request not referred to by an own-space binding, made from its first occurrence; every request is referred to |
| BindingMerge.ActionsOfMerged | pkg/proxy/handlers/spacelister_get.go:281-327 | each entry: user, role, actions and request of the binding, or of the first request with its reference; update and delete for what a request of this space made, override for inherited, none for the system's |
| BindingMerge.BrokenExactly | pkg/proxy/handlers/spacelister_get.go:286-299 | the bindings that make the list fail, on their labels, and which of the two errors they give |
| BindingMerge.EntryExactly | pkg/proxy/handlers/spacelister_get.go:271-348 | a user has an entry if and only if they have a SpaceBinding or a request that made none |
| Members.SpaceAccessGoesToTheHost | pkg/proxy/members.go:50-134 | access to a space is the address and token of a member that hosts it, in the name of the user's compliant name or of the viewer asking as itself |
| Members.SpaceAccessExactly | pkg/proxy/members.go:50-134 | access to a named space is given if and only if there is a name to ask under, the space is known, and the first member of its cluster has an address; it is that member's address and token |
| Members.SpaceRefusedExactly | pkg/proxy/members.go:50-134 | each way to be refused a named space has its own error, with its exact condition |
| Members.HomeAccessExactly | pkg/proxy/members.go:84-157 | without a workspace a provisioned user gets the first member of their own address and cluster name, and nobody else gets any |
| AccessDecision.ValidateWorkspaceRequest | pkg/proxy/proxy.go:829-845 | the request is allowed if and only if some workspace has the name, or none was named and one is the home workspace |
| AccessDecision.VisibleExactly | pkg/proxy/handlers/spacelister_get.go:158-177 | a binding is found if and only if the user, or with the feature on the viewer, has a SpaceBinding |
| AccessDecision.ForwardedOnlyIfEntitled | pkg/proxy/proxy.go:321-341 | a request is forwarded only if the user's compliant name, or the viewer with the feature on, has a SpaceBinding |
| AccessDecision.ForbiddenExactly | pkg/proxy/proxy.go:321-341 | "forbidden" is answered if and only if neither has one, although the user is provisioned or the feature on and the user, space and bindings can be looked up; any other refusal is an internal error |
| AccessDecision.ForwardedExactly | pkg/proxy/proxy.go:321-453 | a request for a named workspace is forwarded if and only if the user can be looked up, the user or with the feature on the viewer has a SpaceBinding, the hosting members list every namespace, no binding is broken, the tier exists, the first member of the cluster has an address, and no user without a name meets a nameless entry; it goes to that member |
| AccessDecision.RequestsExactly | pkg/proxy/handlers/spacelister_get.go:229-248 | the requests of a space are all those the members of its cluster list in its namespaces, and when they can be had |
| AccessDecision.WorkspaceIsTheUsers | pkg/proxy/handlers/spacelister_get.go:146-224 | the workspace shown has the creator as owner, is the home of that signup, and has the role of the user's first binding, or of the viewer's if the user has none |
| AccessDecision.IdentityExactly | pkg/proxy/proxy.go:412-453 | the viewer is impersonated if and only if the feature is on and the user is not on the list or is the viewer; otherwise the user's compliant name |
| AccessDecision.OwnIdentityExactly | pkg/proxy/proxy.go:412-453 | with the feature on, a provisioned user is impersonated as themselves if and only if they have a SpaceBinding or a request that made none, otherwise as the viewer |
| AccessDecision.UnboundUserActsAsThemselves | pkg/proxy/proxy.go:445-453 | a store in which only the viewer is bound and a user with a pending request is forwarded under their own name |
| AccessDecision.OwnBindingMeansOwnIdentity | pkg/proxy/proxy.go:412-453 | a user with a SpaceBinding of their own is impersonated as themselves, unless the raw username is the reserved one |
| AccessDecision.ViewerOnlyWithoutOwnBinding | pkg/proxy/proxy.go:412-453 | the viewer is impersonated only if the feature is on, the viewer has a SpaceBinding and the user has none |
| AccessDecision.WithoutTheFeature | pkg/proxy/proxy.go:412-453 | with the feature off the identity is always that of a bound user |
| DefaultTarget.GetDefaultUserTarget | pkg/signup/service/signup_service.go:642-679 | with no home space, the cluster and first default namespace of the least bound space name |
| DefaultTarget.TargetExactly | pkg/signup/service/signup_service.go:660-679 | the target is the cluster of the space and its first namespace of the default kind, or neither for an unknown space |
| DefaultTarget.LeastIsOrderIndependent | pkg/signup/service/signup_service.go:651-657 | permuted lists have the same least name |
| Text.BeforeExactly | pkg/signup/service/signup_service.go:656 | the order of names: a proper beginning first, otherwise the smaller byte where two names first differ |
| DefaultTarget.RunOnBothOrders | pkg/signup/service/signup_service.go:642-679 | the code run on a list and on any permutation of it returns the same target |
| Decimal.AtoiOfItoa | pkg/verification/service/verification_service.go:126-182 | every 64-bit number that is written as text is read back |
| Decimal.AtoiExactly | pkg/verification/service/verification_service.go:126-182 | the texts that are read as a number: digits, at least one, with or without a sign, within 64 bits |
| PollUpdate.ApprovedByAUsableEvent | pkg/signup/socialevent.go:20-45 | over the retry loop a code approves the user if and only if a try gets through and the event was usable at that very try; the stored UserSignup is then the event applied and the attempts cleared |
| SocialEvents.UpdateUserSignupWithSocialEvent | pkg/signup/socialevent.go:48-63 | the whole new UserSignup after an event |
| SocialEvents.SocialEventEffect | pkg/signup/socialevent.go:48-63 | every flag, the label and the cluster after an event; verification is never asked for anew; annotations, claims and other labels stay |
| SocialEvents.ValidatedExactly | pkg/signup/socialevent.go:20-45 | an event is usable if and only if it has room and is under way; each way to be unusable has its own error |
| Audit.AuditUserSignupAgainstClaims | pkg/signup/service/signup_service.go:589-632 | claim by claim, the method leaves the audited UserSignup and says whether it needed an update |
| Audit.AuditTakesEachClaim | pkg/signup/service/signup_service.go:589-632 | each of the ten claims afterwards is the token's, or the old one where the token has none |
| Audit.FlagSaysChanged | pkg/signup/service/signup_service.go:589-632 | the flag is true if and only if the audit changes the UserSignup |
| Audit.AuditIsIdempotent | pkg/signup/service/signup_service.go:589-632 | a second audit with the same token changes nothing and reports no update |
| Audit.AuditLeavesTheRest | pkg/signup/service/signup_service.go:589-632 | the email hash fits afterwards; annotations, flags and all other labels stay |
| SignupService.BuildUserSignup | pkg/signup/service/signup_service.go:69-185 | the new UserSignup or the first error that applies, in the source's order |
| SignupService.FreshSignupShape | pkg/signup/service/signup_service.go:85-135 | a new UserSignup has nothing sent, counted or retained, and its email-hash label fits its email |
| SignupService.ReactivateUserSignup | pkg/signup/service/signup_service.go:402-425 | the in-place replacement equals the new UserSignup with the old retained annotations and status |
| SignupService.ReactivationKeepsHistory | pkg/signup/service/signup_service.go:402-425 | reactivation keeps the retained annotations and nothing else |
| SignupService.Signup | pkg/signup/service/signup_service.go:341-425 | what is stored and answered for a new, a rejected, a deactivated and an active user |
| SignupService.SignupAnswersExactly | pkg/signup/service/signup_service.go:341-425 | a signup is stored if and only if nothing stands in its way, and each answer with its condition, in the order of the checks |
| SignupService.MustVerifyExactly | pkg/signup/service/signup_service.go:133-178 | a created or reactivated user must verify if and only if the captcha decision or the account verifier asks for it and no event without verification came with the request; the exact set of the other flags |
| SignupService.StoredSaysWho | pkg/signup/service/signup_service.go:107-131 | claims, labels, cluster and status of a created or reactivated UserSignup |
| SignupService.StoredAnnotations | pkg/signup/service/signup_service.go:107-168 | every annotation of a created or reactivated UserSignup |
| SignupService.AdminExactly | pkg/signup/service/signup_service.go:182-185 | an admin is a username that ends in "crtadmin", up to its first "@" |
| SignupService.AuditedRead | pkg/signup/service/signup_service.go:436-470 | a read with a request context stores and returns the audited UserSignup through the retry loop; without one it writes nothing and fails if and only if all five reads fail |
| PollUpdate.RunUpdater | pkg/verification/service/verification_service.go:191-218 | one attempt of a closure: re-read, change the copy, write it back, and what is left when a call fails |
| PollUpdate.PollUpdateSignup | pkg/signup/signup.go:75-100 | the loop makes up to five attempts and stops at the first that succeeds; the closure's variables outlive a failed attempt |
| PollUpdate.FailedAttemptChangesNothing | pkg/verification/service/verification_service.go:191-218 | a failed attempt leaves the object as it was, and when an attempt fails |
| PollUpdate.EndsAtTheFirst | pkg/signup/signup.go:75-100 | the loop ends with a write at the first attempt whose calls both succeed, and without one if and only if none does |
| PollUpdate.OverlayIsWrittenOnce | pkg/signup/signup.go:75-100 | an overlay is written once if and only if one of the attempts works, otherwise not at all |
| PollUpdate.ActivationIsCounted | pkg/verification/service/verification_service.go:482-504 | the counter rises by exactly the number of tries that find the code invalid; the try that ends the loop writes it, or applies the event; an error is pending if and only if some try found the code invalid |
| PollUpdate.AnswerIsTheLastComplaint | pkg/verification/service/verification_service.go:482-504 | the pending error is that of the last try that found the code invalid |
| PollUpdate.WrongCodeCountsOnceExactly | pkg/verification/service/verification_service.go:494-504 | a recorded wrong code is recorded as one attempt if and only if exactly one try found it invalid |
| PollUpdate.OneCodeCanCountFive | pkg/verification/service/verification_service.go:494-504 | four failing writes make one wrong code count as five attempts |
| VerificationService.AnswerAndEffect | pkg/verification/service/verification_service.go:481-519 | the call reports success if and only if a try wrote and none found the code invalid; an error although the event was applied if and only if an earlier try had found the code invalid; "invalid" with nothing recorded if and only if a try found it invalid and none wrote; the error is that of the last such try |
| PollUpdate.AuditIsWrittenOnce | pkg/signup/service/signup_service.go:439-466 | the audit loop stores and returns the audited UserSignup, or leaves the object alone |
| Verification.SendsExactlyWhen | pkg/verification/service/verification_service.go:90-189 | the exact conditions for a message to go out, and that the call then reports no error of its own |
| Verification.InitAnswersExactly | pkg/verification/service/verification_service.go:78-229 | each answer to a call for a code with its exact condition, and when anything is written |
| Verification.RejectsExactlyWhen | pkg/verification/service/verification_service.go:233-277 | a call rejects the user if and only if it comes as far as the look-up and an enforced look-up calls the number risky: risk "high", or blocked |
| Verification.LookupIsRecorded | pkg/verification/service/verification_service.go:233-277 | carrier risk, blocked and details after a written call: those of the reply if the look-up was made, otherwise as before |
| Verification.WindowIsRecorded | pkg/verification/service/verification_service.go:139-151 | a written call opens a new window if and only if the old one is unreadable or more than 24 hours old |
| Verification.SendIsCounted | pkg/verification/service/verification_service.go:122-183 | the send counter after a written call, with and without a message, in an old and in a new window |
| Verification.MessageIsRecorded | pkg/verification/service/verification_service.go:173-189 | code, expiry and attempts after a written call are those of the message, if one went out |
| Verification.NothingElseIsRecorded | pkg/verification/service/verification_service.go:191-218 | a written call changes no other annotation, label or flag |
| Verification.AcceptsExactlyWhen | pkg/verification/service/verification_service.go:304-399 | the exact conditions for a phone code to be accepted, and that only then verification is unset |
| Verification.PhoneAnswersExactly | pkg/verification/service/verification_service.go:304-444 | each answer to a phone code with its exact condition; manual approval is asked for if and only if the stored captcha score is too low and the setting is off or the activation counter is missing, unreadable or 1 |
| Verification.PhoneAnswerIsRecorded | pkg/verification/service/verification_service.go:354-444 | every annotation after a written answer to a phone code |
| Verification.NothingElseIsAnswered | pkg/verification/service/verification_service.go:388-444 | a written answer changes nothing else but the need to verify, which an accepted code ends |
| Verification.AttemptsCheckedExactly | pkg/verification/service/verification_service.go:565-582 | when an activation code may be tried, from which count, and with which error it may not |
| VerificationService.PerformPhoneLookup | pkg/verification/service/verification_service.go:233-277 | the look-up rejects and annotates as decided by mode, country, last number and risk |
| VerificationService.ReadWindow | pkg/verification/service/verification_service.go:122-151 | the counter read or repaired, and reset with a new timestamp when the window is over |
| VerificationService.InitVerification | pkg/verification/service/verification_service.go:78-229 | the stored object, the answer and the message sent are those decided on the UserSignup read, written through the retry loop |
| VerificationService.VerifyPhoneCode | pkg/verification/service/verification_service.go:304-444 | the same for a phone code |
| VerificationService.VerifyActivationCode | pkg/verification/service/verification_service.go:468-520 | the same for an activation code; for a user without a UserSignup it is a signup with the event behind the code, an empty code being a plain signup |
| PhoneNumbers.PhoneNumberAlreadyInUse | pkg/verification/service/verification_service.go:530-563 | the loops find a banned or an active other user with the number's hash if and only if there is one |
| PhoneNumbers.VerdictExactly | pkg/verification/service/verification_service.go:522-563 | a number is taken if and only if a banned user, or another approved and not deactivated user, has its hash; which unreadable list leaves it open |
| PhoneNumbers.NumberAndHashAgree | pkg/verification/service/verification_service.go:522-563 | the check gives the same verdict on a number and on its hash, whatever is stored |
| PhoneNumbers.AgreementExactly | pkg/verification/service/verification_service.go:522-563 | the texts for which that holds in every store: no hash by the look of them, or their own hash |
| PhoneNumbers.PhoneCodeRechecksTheNumber | pkg/verification/service/verification_service.go:345-350 | right after a written call for a code the check on the label gives the verdict of the check on the number |
| PhoneRecheck.LabelIsOfTheLastNumber | pkg/verification/service/verification_service.go:116-203 | in every state of every run the phone-hash label is the hash of the number of the last written call for a code, whether or not a message went out, since creation or reactivation |
| PhoneRecheck.SentNumberIsRecheckedExactly | pkg/verification/service/verification_service.go:345-350 | while a code is pending, the answering call re-checks the number the code went to if and only if the last written call for a code was for a number with the same hash |
| PhoneRecheck.AcceptedNumberIsRecheckedExactly | pkg/verification/service/verification_service.go:345-399 | the same for every accepted code of every run |
| PhoneRecheck.OneNumbersCodeVerifiesAnother | pkg/verification/service/verification_service.go:173-203 | from any unused UserSignup that must verify: the code of one number is accepted, while the number checked and kept on the account is another |
| Runs.InitEffect | pkg/verification/service/verification_service.go:78-229 | a call for a code records a message with code, expiry, counter and window, or sends none that counts and opens at most a new window |
| Runs.InitStepIsTheCall | pkg/verification/service/verification_service.go:78-229 | the step of a call for a code in a run leaves what the call leaves, and is logged as a message if and only if the call sent one, as recorded if and only if it reports no error |
| Runs.PhoneStepIsTheCall | pkg/verification/service/verification_service.go:304-444 | the step of a phone code leaves what the call leaves, and is logged as accepted if and only if the call reports success, as wrong if and only if it answers that the code is invalid |
| Runs.ActivationStepIsTheCall | pkg/verification/service/verification_service.go:468-520 | the step of an activation code leaves what the call leaves, and is logged as accepted, wrong, or wrong with nothing recorded by what was written and answered |
| Runs.AuditStepIsTheCall | pkg/signup/service/signup_service.go:439-466 | the step of a read in a run leaves what the audit leaves in the retry loop |
| StepEffects.PhoneEffect | pkg/verification/service/verification_service.go:304-444 | a phone code is accepted and everything cleared, or counted as wrong by exactly one, or nothing but an unreadable counter changes |
| StepEffects.ActivationEffect | pkg/verification/service/verification_service.go:468-520 | an activation code touches no other verification annotation and not the phone hash, and a wrong one raises the counter by the tries that found it invalid |
| StepEffects.SignupEffect | pkg/signup/service/signup_service.go:341-425 | a signup reactivates if and only if the user is deactivated, not rejected, may sign up with the code given, and the write succeeds; the result is unused, and otherwise nothing changes |
| StepEffects.AbsentEffect | pkg/verification/service/verification_service.go:471-478 | without a UserSignup a step creates an unused one, answers a wrong code, or does nothing |
| StepEffects.AbsentCodeExactly | pkg/verification/service/verification_service.go:471-478 | an activation code of a user without a UserSignup creates one, or is answered as wrong, each with its exact condition |
| SendRate.SendRateIsBounded | pkg/verification/service/verification_service.go:122-188 | in every run, from before the UserSignup exists, and every stretch of it without reactivation: each window has at most the daily limit of recorded messages, all of them inside it; different windows, with messages or without, open more than 24 hours apart; any 24 hours see at most twice the limit, and one for each message whose write failed |
| GuessBudget.WrongAnswersAreBounded | pkg/verification/service/verification_service.go:354-390 | in every run each stretch with r resets has at most r+1 budgets of wrong phone and activation codes and those for which nothing was recorded |
| GuessBudget.BudgetBetweenResets | pkg/verification/service/verification_service.go:482-504 | with a limit of at least one, at most the limit of wrong answers between consecutive resets and those for which nothing was recorded |
| GuessBudget.OneGuessIsFree | pkg/verification/service/verification_service.go:565-571 | with no attempts allowed, a wrong activation code is still recorded once |
| GuessBudget.GuessesAreUnbounded | pkg/verification/service/verification_service.go:471-519 | without a UserSignup, or with any unused one while writes fail, any number of wrong activation codes is answered as invalid, with nothing stored and no reset in between |
| GuessBudget.LimitIsKeptExactly | pkg/verification/service/verification_service.go:471-582 | the configured limit bounds the wrong answers between resets in every run if and only if it is at least one, the stretch starts with a UserSignup, and no activation call in it that finds the code invalid runs out of tries |
| GuessBudget.WrongAnswersPerWindow | pkg/verification/service/verification_service.go:181-390 | with no accepted code and no reactivation in between, one window sees at most (daily limit + 1) budgets of wrong answers and those for which nothing was recorded |
| Acceptance.AcceptsOnlyThePendingCode | pkg/verification/service/verification_service.go:371-399 | at any point of any run a code would be accepted if and only if it is that of the latest message, unused, in time, and no other check stands in the way |
| Acceptance.AcceptedCodeWasSent | pkg/verification/service/verification_service.go:371-399 | in every run an accepted code was sent by the latest message, nothing ended it in between, and it was in time |
| Acceptance.EachSendIsAcceptedOnce | pkg/verification/service/verification_service.go:388-399 | in every run two accepted codes answer two messages, the second sent after the first was accepted |
| Acceptance.PhoneCallClearsOnlyByAccepting | pkg/verification/service/verification_service.go:388-399 | a phone-code call ends the need to verify if and only if it accepts the code |
| History.EmailHashAlwaysMatches | pkg/signup/service/signup_service.go:589-632 | the email-hash label is the hash of the email claim in every state of every run, from before creation on |
| History.HistoryIsOnlyWrittenByOthers | pkg/signup/service/signup_service.go:402-425 | the activation counter and last target cluster are what other controllers wrote last: no step of the service in any run changes them |
| History.RejectedExactlyBy | pkg/verification/service/verification_service.go:154-216 | a step rejects a user if and only if it is a written call for a code with an enforced look-up of a risky number, or a reactivation the account verifier rejects and no event overrides |
| History.RejectionSticks | pkg/verification/service/verification_service.go:90-100 | a rejected UserSignup stays rejected and gets no message in any run of signups, reads, calls for a code and phone codes |
| History.RejectionSticksExactly | pkg/signup/socialevent.go:48-63 | with activation codes too, rejection sticks if and only if manual approval does not clear it |
| OptimisticWrites.NoLostUpdates | pkg/signup/signup.go:75-100 | for any interleaving the object is the fold of the committed effects in commit order, and each commit leaves just its own effect on what the one before it left |
| OptimisticWrites.SuccessMeansOneCommit | pkg/signup/signup.go:75-100 | a request commits once if and only if it reports a written success; it gives up after exactly five failed tries |
| OptimisticWrites.CommitsAsRead | pkg/verification/service/verification_service.go:78-444 | in every interleaving a call for a code, and a phone code that was not wrong, commits the write it decided on the UserSignup as it was at its first read; a wrong phone code is committed only as a counted attempt |
| OptimisticWrites.AnnotationsSurvive | pkg/verification/service/verification_service.go:191-218 | an annotation keeps the value a commit left until a later commit touches that annotation |
| OptimisticWrites.EmailHashSurvivesInterleaving | pkg/signup/service/signup_service.go:402-466 | the email-hash label fits the email claim however requests interleave |
| OptimisticWrites.AloneIsPolling | pkg/signup/signup.go:75-100 | without other writers the interleaved model of calls for a code, phone codes, activation codes and reads, the first read included, ends as the sequential retry loop does |
| OptimisticWrites.AloneIsSignup | pkg/signup/service/signup_service.go:402-425 | without other writers a reactivation ends as the signup call does, in its single try |
| AttemptCounts.CountedCommits | pkg/verification/service/verification_service.go:354-504 | in every interleaving a recorded wrong phone or activation code stores what its request had read plus its tries that found the code invalid, one to five; so the counter rises if and only if it was below that |
| AttemptCounts.CountIsKeptExactly | pkg/verification/service/verification_service.go:479-504 | where nothing else writes the counter, it is at every commit the recorded attempts plus the balance of its chain of reads: exact if and only if each attempt spent one extra try per attempt it missed, never too few if and only if no chain missed more than it spent, for which it is enough that no attempt did |
| AttemptCounts.CountsCanCollapse | pkg/verification/service/verification_service.go:479-504 | from every UserSignup with attempts left, two wrong activation codes at once are both recorded and the counter rises by one |
| Ledger.NumberIsBalanced | pkg/verification/service/verification_service.go:479-504 | a counter written as "what I read, plus one, plus extra" is the counting writes plus the extras less the missed writes along its chain of reads |
| Ledger.ExactExactly | pkg/verification/service/verification_service.go:479-504 | such a counter is exact at every write if and only if each write added in excess just what it had missed |
| SendCounts.RecordedSends | pkg/verification/service/verification_service.go:122-183 | in every interleaving a recorded message stores the next number after the sends its call had read in the window, which were below the daily limit then |
| SendCounts.SendCountIsKeptExactly | pkg/verification/service/verification_service.go:122-183 | within one window the send counter counts the recorded messages exactly if and only if no call missed a message recorded between its read and its commit |
| SendCounts.SendsCanCollapse | pkg/verification/service/verification_service.go:122-218 | from every UserSignup on which two calls would send in the open window: called at once, both send and record, and the counter rises by one |

## Environment

- The API server refuses a write whose resource version is stale; an error from a write means nothing was written.
- The clock does not run backwards (`Clocked`); times are milliseconds, which is what the timestamp layout keeps.
- `World` holds the library functions (`Lawful` says what is asked of them: timestamps read back, md5 gives
  32 hexadecimal digits; `UserSignups.LawfulWorldExists` shows that it can be met). `clearedByApproval` is the set of flags manual approval removes; it holds
  verification-required, deactivating and deactivated, and whether it holds rejected is left open.
- Other controllers leave the verification annotations, the two hash labels, the claims and the
  verification-required and rejected flags alone, and neither create nor delete a UserSignup. In `OptimisticWrites` they may write anything.
- The configured limits are constants of a run and fit 32 bits.

## Left out

- HTTP servers, routing, JWT and key fetching, metrics, logging, configuration loading: plumbing.
- The decision whether phone verification is required, the captcha, the account verifier, the phone
  look-up and the message service are inputs of a call; the generated code too.
- `spacebinding.Lister.ListForSpace`, the route look-up of a member, and the `states` and `condition` setters are not part of this repository: the binding list and the route are inputs and the setters act on a set of flags.
- SendRate.SendRateIsBounded: a message whose write fails in all five tries goes out but is not counted by the service, so it stands in the bound as itself; reactivation starts a new counter, so the bound is for stretches without it.
- GuessBudget.WrongAnswersAreBounded: is about one request at a time, because the counters hold values read before the closure (see `AttemptCounts.CountsCanCollapse`); a wrong phone code whose writes all fail is answered with the failed write, not as wrong, and is no wrong answer here.
- AttemptCounts.CountIsKeptExactly: for interleavings in which nothing but attempts writes the attempts counter; an accepted code, a message or a reactivation sets it anew.
- SendCounts.SendCountIsKeptExactly: for recorded messages of one window; a new window starts the counter over.
- OptimisticWrites.NoLostUpdates: the object is never deleted, so the not-found branch of the closures is covered only by the sequential `PollUpdate.RunUpdater`.
- The label keys for the phone hash on UserSignups and on banned users are taken as one key.
- `http.Header` keys are compared after ASCII lower-casing; whether a request is a WebSocket upgrade is an input; the rewriting Go's `ReverseProxy` does after the director is not modelled.
- The response `DoGetSignup` builds, `ResetNamespaces`, the workspace list handler and the home-workspace branch of the proxy would add only easy members.
- That every texted number was looked up does not hold: the phone-hash label is written even when the look-up was skipped or failed, and then counts as looked up.
