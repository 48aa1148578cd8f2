# Vergo: verified models of its stateful core

Vergo is a multi-tenant SaaS backend. This project models the parts of it that keep state and proves what they promise
over whole runs:

- **Rate limiter** (`RateLimit.dfy`, `RateLimitLaws.dfy`): the token buckets, `Allow`, `Remaining` and the sweep that
  deletes idle buckets. Main results: the exact admission law for every run with any sweeps, and that sweeping is
  invisible exactly when a bucket refills within five minutes.
- **Webhook delivery** (`Webhooks.dfy`, `WebhookLaws.dfy`, `Dispatcher.dfy`, `WebhookReach.dfy`): the delivery table, the
  batch loop and inserts interleaved with it. Main results: the delivery ledger, backoff spacing, no starvation under the
  batch limit, quiescence, and which rows can still be POSTed.
- **Refresh tokens** (`RefreshTokens.dfy`, `Rotation.dfy`, `RotationRaces.dfy`): rotation with every SQL statement a step
  and any number of requests in flight. Main results: the lineage invariant in every interleaving, and the exact
  conditions for branching and for the finality of LogoutAll.
- **Password resets** (`ResetRaces.dfy`): the same for the statements of a reset, with the exact condition under which a
  reset token works only once.
- **Auth handlers** (`AuthHandlers.dfy`, `AuthLaws.dfy`, `AuthHistory.dfy`, `AtomicRotation.dfy`): the seven handlers as
  atomic steps over users, refresh tokens and reset tokens. Main results: every answer as a function of the history alone,
  one chain per login, no token accepted twice, finality of logout and revoke-all, and that atomic runs are race-free
  interleavings.
- **Users** (`Users.dfy`, `Bcrypt.dfy`): the in-memory service with its two indexes against the table-backed one, and
  which passwords bcrypt tells apart.
- **Projects and audit log** (`Projects.dfy`, `ProjectLaws.dfy`, `ProjectAnswers.dfy`): audit replay, tenant
  non-interference, and every answer and event told through what a Get shows.
- **Paging** (`Paging.dfy`): the audit and file listings with both clamps and the integer conversions.
- **API keys** (`ApiKeys.dfy`): validity and listing as functions of the create/revoke history.

`Common.dfy` holds the option type. Run `dafny verify dfyconfig.toml` to check everything.

## How the model reads the code

- float64 is `real`; the rate is non-negative and clocks do not run backwards. `burst` may be any integer.
- Go ints are unbounded except where the code converts or multiplies them: page offsets wrap at 64 and then 32 bits.
- Generated ids, random tokens and clock readings are inputs of a step; a law that relies on generated values being new
  says so (`FreshRun`, `AllFresh`, `DistinctCreates`, or the enabling condition of a step). SHA-256 is injective and JWTs are records, so a
  presented token is any record at all, genuine or not. `exp` and `jti` are the claims of sections 4.1.4 and 4.1.7 of
  RFC 7519; the exp claim is cut to whole seconds, the stored expiry is not.
- bcrypt refuses to hash more than 72 bytes and is otherwise an ideal check of the 72 bytes that key its cipher: the
  UTF-8 bytes of the password and a NUL, repeated and cut. Comparing refuses no length.
- The validator's e-mail format check is a parameter of the auth model; required fields and the length of a password are
  modelled, so each payload refusal (422) is there.
- ORDER BY columns with ties: the pending query of the dispatcher may break ties in any way; listings by `created_at` use
  the order of insertion.
- Where a promise turned out false of the code, the code is kept and the exact condition is proved:
  - sweeping is noticeable, and forgets admissions, when `300 * rate < burst` (`RateLimitLaws.EvictionInvisible`,
    `RateLimitLaws.AllAdmissionsCountIff`);
  - the in-memory user service ignores bcrypt's refusal of over-long passwords, and the table-backed one ignores updates
    of unknown users (`Users.IndexAgreement`);
  - an audit page whose offset does not fit 32 bits is wrong or fails (`Paging.PageRightIff`);
  - two requests that both pass the check of one refresh token before either revokes it give that token two successors
    (`RotationRaces.BranchesIffRacing`, with a run in `RotationRaces.RaceIsReachable`);
  - a Refresh past its check when LogoutAll runs still hands out a working token (`RotationRaces.LogoutAllFinalIff`);
  - two resets that both find one token unused before either marks it change the password twice
    (`ResetRaces.ResetOnceIffNoRace`, with a run in `ResetRaces.RaceIsReachable`);
  - a login also succeeds with a password that bcrypt cannot tell from the one set (`AuthLaws.LoginLaw`,
    `AuthLaws.LoginExact`, `AuthLaws.TwinUnlocks`);
  - a project creation that draws an id which another org's row already has is refused, so tenants are independent exactly
    when that never happens (`ProjectLaws.TenantsDoNotInterfere`).
- The migration comment calls the key prefix the first 8 characters; the code takes 12, and so does the model.

## Model

| member | source | states |
|---|---|---|
| RateLimit.Limiter.Allow | internal/pkg/ratelimit/limiter.go:41-65 | one admission attempt: verdict and whole new bucket map equal the atomic step of the run model |
| RateLimit.Limiter.Remaining | internal/pkg/ratelimit/limiter.go:68-84 | the non-consuming query answers as the atomic step does and changes nothing |
| RateLimit.Limiter.Sweep | internal/pkg/ratelimit/limiter.go:105-113 | the range-and-delete loop leaves exactly the buckets seen within the last 300 seconds, unchanged |
| RateLimitLaws.SweepLaw | internal/pkg/ratelimit/limiter.go:97-116 | in every run a sweep leaves a key without a bucket iff it had no request, admitted or not, in the last 300 seconds; such a key is answered with a full burst |
| RateLimitLaws.AdmissionLaw | internal/pkg/ratelimit/limiter.go:41-65 | in every run, with any sweeps and any configuration, a request is admitted iff every time window ending at it, counting itself and the requests of its key admitted since its bucket was last evicted, holds at most burst + rate * length |
| RateLimitLaws.UnevictedAdmissionLaw | internal/pkg/ratelimit/limiter.go:41-65 | as long as no sweep has deleted the key's bucket, the law holds counting all its admissions |
| RateLimitLaws.AllAdmissionsCountIff | internal/pkg/ratelimit/limiter.go:41-113 | the law that counts all admissions holds in every run iff 300 * rate >= burst |
| RateLimitLaws.EvictionForgetsAdmissions | internal/pkg/ratelimit/limiter.go:97-116 | for every other configuration, a run in which that law gives a wrong answer |
| RateLimitLaws.BudgetIsTightestWindow | internal/pkg/ratelimit/limiter.go:52-64 | the tokens left after a sequence of admissions reach one iff every window leaves room for one more |
| RateLimitLaws.EvictionInvisible | internal/pkg/ratelimit/limiter.go:97-116 | every answer of every run equals that of a limiter that never deletes a bucket, iff 300 * rate >= burst |
| RateLimitLaws.EvictionNoticed | internal/pkg/ratelimit/limiter.go:97-116 | for every configuration with 300 * rate < burst, a concrete run whose answers show the eviction |
| RateLimitLaws.EvictionBound | internal/pkg/ratelimit/limiter.go:46-58 | whatever the rate, a window of any run admits at most burst * (1 + evictions of the key in it) + rate * length |
| RateLimitLaws.TokenLedger | internal/pkg/ratelimit/limiter.go:46-64 | conservation: admissions plus tokens left are covered by the starting level, refills and evictions |
| RateLimitLaws.RemainingTruthful | internal/pkg/ratelimit/limiter.go:68-84 | the reported count is the number of immediate requests that would succeed, for any number tried and from any state |
| RateLimitLaws.OtherTrafficHarmless | internal/pkg/ratelimit/limiter.go:41-84 | inserting anything that admits no request of a key into a sweep-free run changes no later answer for that key |
| WebhookDispatcher.Dispatcher.GetPendingDeliveries | internal/repo/webhooks.sql.go:108-116 | returns distinct undelivered rows with fewer than 5 attempts whose next_retry has come, ordered by it; any other such row is left out only when the limit is reached by rows stamped no later |
| WebhookDispatcher.Dispatcher.InsertDelivery | internal/repo/webhooks.sql.go:186-190 | a new row is due at once with no attempts; the system invariant is kept |
| WebhookDispatcher.Dispatcher.MarkDelivered | internal/repo/webhooks.sql.go:253-257 | the row is delivered with status 200 and one more attempt, nothing else changes |
| WebhookDispatcher.Dispatcher.MarkRetry | internal/repo/webhooks.sql.go:270-274 | the row has one more attempt, the error and the new next_retry, nothing else changes |
| WebhookDispatcher.Dispatcher.Deliver | internal/domain/webhook/dispatcher.go:34-51 | one round of the loop, with inserts before and during the POST, is a run of the state machine with exactly one POST |
| WebhookDispatcher.Dispatcher.ProcessPending | internal/domain/webhook/dispatcher.go:27-52 | a tick is a run that fetches once, at most 50 rows, POSTs every fetched row once, keeps the invariant and ends idle, whatever the world does |
| WebhookLaws.RunKeepsInv | internal/domain/webhook/dispatcher.go:34-50 | every run, whatever is interleaved, keeps the ledger of every row and the currency of the fetched attempts |
| WebhookLaws.DeliveryLedger | internal/domain/webhook/dispatcher.go:28-50 | in every reachable state attempts count POSTs, at most five; the last POST of a delivered row is its only success; fetched attempts are still current |
| WebhookLaws.DeliveredIsFinal | internal/repo/webhooks.sql.go:113 | in every run a row once delivered is never POSTed or changed again |
| WebhookLaws.TableLaw | internal/repo/webhooks.sql.go:186-274 | in every reachable state each step changes exactly the row it is about, to the values written out |
| WebhookLaws.BackoffSpacing | internal/domain/webhook/dispatcher.go:42-48 | attempts j < k of one delivery start at least 2^k - 2^j minutes apart, with the powers written out |
| WebhookLaws.RetryStamp | internal/domain/webhook/dispatcher.go:42-48 | an undelivered row that failed is due exactly 2^attempts minutes after its last failure, exponent at most 5 |
| WebhookLaws.NoStarvation | internal/repo/webhooks.sql.go:108-116 | from every reachable idle state a due row with m pending rows stamped no later is POSTed within floor(m / 50) + 1 ticks, whatever the outcomes and however many later-stamped rows arrive |
| WebhookLaws.OverdueNeverStarves | internal/domain/webhook/dispatcher.go:27-52 | the same bound for an overdue row in every run, with no assumption on what is inserted |
| WebhookLaws.BudgetRun | internal/domain/webhook/dispatcher.go:34-51 | POSTs made plus POSTs still possible never exceed those possible at the start plus five per insert; no row is lost |
| WebhookLaws.Quiescence | internal/domain/webhook/dispatcher.go:27-52 | n inserted deliveries cause at most 5n POSTs and at most 5n productive ticks, and all n rows remain |
| WebhookLaws.QuietWhenSpent | internal/repo/webhooks.sql.go:113 | nothing is left to do iff every row is delivered or has had exactly five POSTs, and then every tick comes back empty |
| WebhookReach.PostedAgainIff | internal/repo/webhooks.sql.go:108-116 | in every reachable idle state some continuation POSTs a row again iff no POST of it has succeeded and it has had fewer than five |
| WebhookReach.FiveAttempts | internal/domain/webhook/dispatcher.go:34-51 | every number of POSTs up to five is reached by a delivery that keeps failing |
| RefreshTokens.PathAscends | internal/repo/refresh_tokens.sql.go:39-42 | along any rotation path the user is constant, the order of issue rises and all but the last token are revoked |
| RefreshTokens.SingleChainBelow | internal/repo/refresh_tokens.sql.go:39-78 | without branching, all paths from a token are prefixes of one chain in which at most the last token is unrevoked |
| Rotation.StepEvolves | internal/auth/store_pg.go:35-74 | every single statement keeps the lineage invariant, never unrevokes and never changes another column |
| Rotation.CheckPassesIff | internal/auth/store_pg.go:48-66 | a check lets a request pass iff its token is stored in every claim, unrevoked and not past the stored expiry, and for the user of that row |
| Rotation.RotationLineage | internal/http/handlers/auth.go:151-175 | in every interleaving: no cycle, constant user along every path, every token with a successor revoked, every token descends from a login of its user |
| RotationRaces.ChainUnlessRacing | internal/http/handlers/auth.go:151-175 | interleavings without two requests holding one token between check and revoke keep each login's descendants a single chain |
| RotationRaces.RaceBranches | internal/http/handlers/auth.go:151-175 | from any state with such a race, letting both requests finish gives the token two successors |
| RotationRaces.BranchesIffRacing | internal/http/handlers/auth.go:151-175 | a run has no such race iff at every moment of it no continuation without a further check can give a token two successors |
| RotationRaces.RaceIsReachable | internal/http/handlers/auth.go:151-175 | a run from the empty table that ends in a race and goes on to branch |
| RotationRaces.LogoutAllFinalIff | internal/http/handlers/auth.go:151-223 | in every interleaving, no token the user had before LogoutAll gains a descendant afterwards iff no request of the user is past its check at that moment |
| RotationRaces.InFlightOutlivesLogoutAll | internal/http/handlers/auth.go:157-175 | such a request stores a token after LogoutAll that the validity check accepts |
| RotationRaces.LogoutAllRefusesEarlier | internal/auth/store_pg.go:48-66 | requests in flight or not, no check after LogoutAll accepts a token the user had before |
| ResetRaces.ResetOnceIffNoRace | internal/auth/reset.go:52-70 | with each statement a step: a run has no two requests between lookup and marking of one token iff at every moment of it no continuation without a further lookup lets a token change a password twice; without such races no token does |
| ResetRaces.RaceChangesTwice | internal/http/handlers/auth.go:292-310 | from any state with such a race, letting both requests finish changes the password twice with one token |
| ResetRaces.RaceIsReachable | internal/auth/reset.go:52-70 | for every token and acceptable password, a run from the empty table that ends in such a race |
| ResetRaces.ResetIsItsStatements | internal/http/handlers/auth.go:285-313 | the atomic ResetPassword leaves the users and reset tokens that its own statements leave when they run undisturbed |
| AuthHandlers.AuthHandler.RevokeAllForUser | internal/repo/refresh_tokens.sql.go:63-67 | every row of the user is revoked, rows revoked earlier and rows of others are unchanged |
| AuthHandlers.AuthHandler.HandleSignup | internal/http/handlers/auth.go:43-76 | response and all tables equal the atomic step, including each refusal |
| AuthHandlers.AuthHandler.HandleLogin | internal/http/handlers/auth.go:89-122 | response and all tables equal the atomic step, including each refusal |
| AuthHandlers.AuthHandler.HandleRefresh | internal/http/handlers/auth.go:139-181 | response and all tables equal the atomic step, including each refusal |
| AuthHandlers.AuthHandler.HandleLogout | internal/http/handlers/auth.go:193-206 | response and all tables equal the atomic step |
| AuthHandlers.AuthHandler.HandleLogoutAll | internal/http/handlers/auth.go:215-223 | response and all tables equal the atomic step |
| AuthHandlers.AuthHandler.HandleForgotPassword | internal/http/handlers/auth.go:238-267 | the answer never depends on the account; a row is added only for an existing one |
| AuthHandlers.AuthHandler.HandleResetPassword | internal/http/handlers/auth.go:285-313 | response and all tables equal the atomic step; a failed hash still consumes the token |
| AuthHistory.EveryAnswerByHistory | internal/http/handlers/auth.go:43-313 | every answer of every run, with its status, user and token, is the one that the requests and answers before it call for: each grant and each refusal of all seven handlers as a condition on the history alone |
| AuthHistory.ConflictLaw | internal/http/handlers/auth.go:43-181 | what stays written when the database refuses a generated id or token: the account of a signup, the revocation of a rotation |
| AuthHistory.LogoutRevokes | internal/http/handlers/auth.go:193-206 | a Logout is granted iff its token is present, authentic, of type refresh and before its exp; it revokes the row with that id at that time and changes no other |
| AuthHistory.LogoutIsFinal | internal/http/handlers/auth.go:193-206 | after a granted Logout of a stored token every later Refresh with its id is refused and it gains no successor |
| AuthHistory.TokenLifetime | internal/auth/jwt.go:36-52 | every token handed out and its row expire ttlDays * 86400 seconds after issue, the exp claim cut to whole seconds |
| AuthLaws.RunKeepsTokens | internal/http/handlers/auth.go:139-181 | every run keeps the lineage unbranched, only adds rows, and rotates only unrevoked tokens |
| AuthLaws.SingleChain | internal/http/handlers/auth.go:139-181 | in every run the tokens descending from a login form one chain with one user, and at most its end is unrevoked |
| AuthLaws.AcceptedOnce | internal/http/handlers/auth.go:151-158 | once a Refresh of a token gets past the checks, every later Refresh with that id is refused |
| AuthLaws.AcceptedIff | internal/auth/store_pg.go:48-66 | at every position of every run a presented token passes iff it equals a stored, unrevoked token in every claim and its exp claim has not passed; the stored expiry never refuses more |
| AuthLaws.IssuedTokenIsAccepted | internal/auth/store_pg.go:48-66 | a token just handed out is accepted until its exp claim, for its user, and its successor is recorded as rotated from it |
| AuthLaws.RevokeAllIsFinal | internal/repo/refresh_tokens.sql.go:63-67 | after LogoutAll or a password reset at any position of any run, no later request accepts an earlier token of the user, none gains a descendant, and that position left other users' tokens untouched |
| AuthLaws.LoginLaw | internal/domain/user/service_pg.go:42-54 | at every position of every run a login succeeds iff the password has six characters and the same bcrypt key as the one set by the latest successful signup or reset of that address, read off the history alone |
| AuthLaws.LoginExact | internal/domain/user/service_pg.go:42-54 | for passwords without NULs of at most 72 bytes a login succeeds iff the password is the latest one |
| AuthLaws.TwinUnlocks | internal/domain/user/service_pg.go:50 | at every position of every run a password other than the latest one also succeeds |
| Bcrypt.SameKeyIffSameCut | internal/domain/user/service_pg.go:50 | passwords without NULs are the same to bcrypt iff their first 72 bytes are |
| Bcrypt.SameKeyIffEqual | internal/domain/user/service_pg.go:25-50 | passwords without NULs of at most 72 bytes are the same to bcrypt iff they are equal |
| Bcrypt.EveryPasswordHasATwin | internal/domain/user/service_pg.go:50 | every password has another one with the same key |
| AuthLaws.ResetOnce | internal/auth/reset.go:52-70 | a reset token changes a password at most once in any run |
| AuthLaws.ResetWithinHour | internal/auth/reset.go:32-63 | a reset token changes a password only within an hour of the request that added its row; when exactly a reset succeeds is part of EveryAnswerByHistory |
| AtomicRotation.RefreshInterleaves | internal/http/handlers/auth.go:139-181 | the atomic Refresh, granted or refused, is its listed statements run one after the other |
| AtomicRotation.HandleInterleaves | internal/http/handlers/auth.go:43-313 | every handler leaves the tokens that its listed statements leave when they run undisturbed |
| AtomicRotation.AtomicRunsInterleave | internal/http/handlers/auth.go:43-313 | every run of the atomic handlers leaves the tokens that its statements leave, handler by handler, and these race nowhere |
| Users.MemoryRepo.Signup | internal/domain/user/service.go:38-52 | result and both indexes equal the specified step; the indexes stay inverse |
| Users.MemoryRepo.Login | internal/domain/user/service.go:54-67 | answers as specified and changes nothing |
| Users.MemoryRepo.GetByID | internal/domain/user/service.go:69-77 | answers as specified and changes nothing |
| Users.MemoryRepo.GetByEmail | internal/domain/user/service.go:79-87 | answers as specified and changes nothing |
| Users.MemoryRepo.UpdatePassword | internal/domain/user/service.go:89-99 | result and both indexes equal the specified step; the indexes stay inverse |
| Users.TableAnswers | internal/domain/user/service_pg.go:24-83 | every answer and effect of the table-backed service as a condition on the rows of its table |
| Users.IndexesStayInverse | internal/domain/user/service.go:38-99 | in every reachable state the email index and the emails of the id index are inverse to each other |
| Users.StepMirrors | internal/domain/user/service_pg.go:24-83 | from mirrored states one operation has the same outcome iff it is compatible, and then the states mirror each other again |
| Users.IndexAgreement | internal/domain/user/service.go:38-99 | all results of a run agree with the table-backed service iff no unused address signs up with more than 72 bytes and no unknown user is updated |
| Users.LongPasswordSeparates | internal/domain/user/service.go:46 | the condition can fail: one over-long signup already separates the services |
| Users.UnknownUpdateSeparates | internal/domain/user/service_pg.go:78-83 | after any run, one update of an unknown user separates the services |
| Projects.ProjectsHandler.HandleList | internal/domain/project/service.go:46-56 | the copying loop returns exactly the org's rows in order |
| Projects.ProjectsHandler.HandleGet | internal/http/handlers/projects.go:108-121 | response equals the specified lookup, nothing changes |
| ProjectAnswers.ListShowsAll | internal/domain/project/service.go:46-56 | after every run a List answers with exactly the projects that a Get of the org shows, each once, and oldest first under a monotone clock |
| ProjectAnswers.EveryAnswerBySight | internal/http/handlers/projects.go:67-207 | in every run each request is granted or refused, with its status and project, exactly as what a Get shows before it calls for |
| ProjectAnswers.EveryWriteIsRecorded | internal/http/handlers/projects.go:83-205 | each granted write appends exactly one event with actor, action, id, time and the projects shown before and after; nothing else about projects is recorded |
| Projects.ProjectsHandler.HandleCreate | internal/http/handlers/projects.go:67-95 | response, table and audit log equal the specified step, including each refusal |
| Projects.ProjectsHandler.HandleUpdate | internal/http/handlers/projects.go:138-170 | response, table and audit log equal the specified step, including each refusal |
| Projects.ProjectsHandler.HandleDelete | internal/http/handlers/projects.go:183-207 | response, table and audit log equal the specified step, including each refusal |
| ProjectLaws.AuditReplay | internal/http/handlers/projects.go:83-205 | in every run, replaying an org's project events rebuilds exactly its current projects, and each Before is the After of that project's previous event |
| ProjectLaws.ReadAfterWrite | internal/repo/projects.sql.go:27-133 | a read after any request shows a written project with exactly the given and the kept fields, a deleted one as a miss, all others unchanged |
| ProjectLaws.TenantsDoNotInterfere | internal/repo/projects.sql.go:13-133 | purging other orgs' requests from a run leaves every response to an org the same, iff none of its creations draws another org's id |
| ProjectLaws.CollisionInterferes | internal/repo/projects.sql.go:53-57 | the condition can fail: a run in which a drawn id makes the difference |
| ProjectLaws.ListedOldestFirst | internal/repo/projects.sql.go:88-93 | with a monotone clock every listing holds exactly the org's rows, oldest first |
| Paging.ListAudit | internal/http/handlers/audit.go:38-98 | page at least 1 by default 1, size 1 to 100 by default 20, the refusal without an org, and for offsets below 2^31 exactly that slice of the filtered rows with its next_offset |
| Paging.PageAndSize | internal/http/handlers/audit.go:45-57 | the page and size used, for every parameter |
| Paging.BuildFilter | internal/http/handlers/audit.go:65-84 | the filter built step by step is the specified one |
| Paging.FilterOf | internal/http/handlers/audit.go:65-84 | an event passes the filter iff it is of the org and agrees with every parameter that is present and parses |
| Paging.ListEvents | internal/domain/audit/service_pg.go:40-81 | the service's clamps, conversions and copying loop: for offsets below 2^31 the slice of 1 to 100 rows asked for, or of 20 |
| Paging.ListFiles | internal/http/handlers/storage.go:186-212 | limit 1 to 100 by default 20, offset by default 0, the refusal without an org, and for offsets below 2^31 exactly that slice of the org's files with its next_offset |
| Paging.ListFileRows | internal/domain/file/service_pg.go:63-85 | the service's clamps, conversions and copying loop equal the specified query |
| Paging.AuditRowsAreRight | internal/repo/audit_logs.sql.go:45-58 | the query returns each matching event as often as recorded, newest first, and nothing else |
| Paging.FileRowsAreRight | internal/repo/files.sql.go:103-109 | the query returns each of the org's files as often as stored, newest first, and nothing else |
| Paging.ServiceClampIdle | internal/domain/audit/service_pg.go:40-48 | the service clamp never alters a size that either handler produced |
| Paging.PageRightIff | internal/domain/audit/service_pg.go:50-59 | a page is the right slice with the right next_offset, for every log and filter, iff its offset is below 2^31 |
| Paging.AuditPageExactly | internal/http/handlers/audit.go:45-97 | the page returned for every parameter, fitting or not: what a wrapped offset reads and when the query fails |
| Paging.FilePageExactly | internal/http/handlers/storage.go:193-211 | the same for the file listing |
| Paging.AuditPageWalk | internal/http/handlers/audit.go:45-97 | pages 1 to ceil(n / s) of a fixed log, concatenated, are exactly the query result |
| Paging.FollowReadsAll | internal/domain/file/service_pg.go:63-85 | following next_offset from any point reads exactly the org's remaining files in the order of the query and stops |
| ApiKeys.Service.CreateKey | internal/domain/apikey/service.go:52-91 | fails iff id or key is taken; otherwise the row is added and returned with its first 12 characters as prefix, together with the plaintext |
| ApiKeys.Service.RevokeKey | internal/repo/api_keys.sql.go:135-138 | exactly the unrevoked row with that id and org is revoked |
| ApiKeys.Service.ValidateKey | internal/domain/apikey/service.go:126-146 | answers as the specified lookup does and changes nothing |
| ApiKeys.Service.List | internal/domain/apikey/service.go:93-117 | the copying loop returns exactly the org's unrevoked rows in order |
| ApiKeys.HistoryDeterminesTable | internal/repo/api_keys.sql.go:14-153 | after any run each created key's row shows its first revocation under its own org and its last use |
| ApiKeys.ValidByHistory | internal/domain/apikey/service.go:126-146 | a key validates iff some creation made it, no later revocation named it with its own org and it has not expired; the answer names that creation |
| ApiKeys.ListedByHistory | internal/domain/apikey/service.go:93-117 | the listing is exactly the org's created and unrevoked keys as the history has them, the last created first, expired ones included |
| ApiKeys.ListedNewestFirst | internal/repo/api_keys.sql.go:84-89 | with a monotone clock the listing descends by created_at and holds a key iff it is the org's, created and unrevoked, with its creation data and its latest use |

## Left out

- Float64 rounding, clock adjustments and the limiter's goroutine shutdown: the model has reals, a monotone clock and sweep steps.
- JWT signing, SHA-256, bcrypt's cost, HMAC and random generation: symbolic.
- HTTP delivery, routing, JSON decoding, the rules of the e-mail format check, logging, telemetry, configuration.
- Failing store writes whose errors the code discards (`Revoke`, the two mark statements, audit writes): writes succeed, except for the key conflicts that the model has.
- Billing, RBAC, tenant and plan middleware, membership handlers, endpoint selection in `Dispatch`: easy or outside the state that the laws speak of.
- Cascades from deleted organizations or users: no statement in the modelled code deletes an endpoint, a user or a token.
- Files: creation and the metadata column; only the listing is modelled.
- ResetRaces: the revocation of tokens that ends a reset is the LogoutAll step of `Rotation`.
- Inserts during a page walk and rows tied on `created_at` in listings.
- Users.MemoryRepo: the read-write mutex; each method is one atomic step.
- RateLimitLaws.AdmissionLaw: needs rate >= 0; with a negative rate a bucket drains by itself and the window law is not what the code does.
- WebhookLaws.NoStarvation: inserts stamped at the very instant of the row's next_retry may tie with it, so they are excluded; OverdueNeverStarves needs no such exclusion.
