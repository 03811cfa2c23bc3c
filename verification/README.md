# Organization control: verified protocols

A Dafny model of the transactional protocols of the organization control plane, with proofs of what
they keep over every run. `dafny verify dfyconfig.toml` checks all of it.

Each protocol is a state machine. A transaction body is one function of the tables that commits whole
or not at all. A run is any sequence of such steps, by any number of requests, with crashes, lost
acknowledgements and other traffic in between; whatever a request cannot control (clock readings,
minted identifiers, what others do, what becomes of a commit) is a parameter of the step. The theorems
are about every run. Beside each state machine, a class runs the operation as the source does, with its
loops and its fields, and is proved to be a run of it. A `Rules` module says of each transaction, in the
rows, the clock and the request alone, exactly when it succeeds, what it then changes, and which refusal
belongs to which condition; the contracts of the classes are stated in its terms.

| files | protocol |
|---|---|
| `Membership`, `MembershipRules`, `MembershipService`, `Advance` | versioned Memberships, their event history, and moving versions past a consumer's after a restore |
| `Batch`, `BatchRules`, `BatchInvariant`, `BatchSteps`, `BatchResults`, `BatchProgress`, `BatchLimits`, `BatchService` | preview, execution under a lease, takeover, completion |
| `Authority`, `AuthorityInvariant`, `AuthoritySteps`, `AuthorityRules`, `AuthorityResults`, `ProviderService` | provider grants, timed activations, bootstrap, and their published projection |
| `Idempotency`, `IdempotencyResults`, `IdempotencyReplay`, `IdempotencyRules`, `IdempotencyService` | keys claimed with the effect, responses recorded with it or after it, replay and adoption |
| `Invitation`, `InvitationResults`, `InvitationRules`, `InvitationService` | acceptance in three phases, against revocation, expiry and other acceptances |
| `Admission`, `AdmissionResults`, `AdmissionRules` | from token claims to a caller, to a scope, to an entry point |
| `ScopedAccess`, `ScopedAccessResults`, `ScopedAccessService` | evidence, transaction, binding, claim, body and commit of every entry point, nested and concurrent |
| `Review` | reviews of privileged access and the counts they store |
| `ReplayCache` | the token issuer's memory of client assertions |
| `Paging` | keyset paging |
| `Projection`, `Base` | a consumer that keeps the highest version; shared types |

## Where the code and what is said of it differ

- A preview is said to be unable to promise what the command would refuse
  (`internal/membership/service.go:421-426`). It does for a restore whose slot another active
  Membership has taken: `BatchLimits.PreviewPromisesARefusedRestore` is such a case, and
  `BatchResults.PromiseKeptExactlyWhen` is the exact condition.
- An `error_allowance` outcome can exist with no failure recorded, when an item's commit succeeded and
  its acknowledgement was lost (`BatchLimits.AllowanceWithoutFailure`). In every run it means that
  recorded failures and such unheard successes of the completing request add up to one more than
  tolerated, so the recorded failures reached the tolerance exactly when that request had none
  (`BatchResults.AllowanceExceeded`, `BatchResults.UnheardCounted`).
- The counts a review stores are the accesses its period holds for good exactly when no access stamped
  in the period is still uncommitted (`Review.CountsStayTrueExactlyWhen`): a row is stamped when its
  transaction starts and is counted only once it commits. `Review.LateCommitUndercounts` is a run.
- The namespace of a person's idempotency keys depends on whether a provider grant of theirs is in
  force. A request for an activation that needs no approval changes that, so its own retry is run
  again, and refused, rather than replayed (`AdmissionResults.ActivationMovesItsOwnKeys`, reached by
  `AdmissionResults.ActivationKeysReached`; `AdmissionResults.KeysFollowStanding` is the exact condition).
- Evicting expired assertions is not the same as remembering every identifier: the identifier of an
  expired assertion can be used by a new one (`ReplayCache.ForgetsExpiredIdentifiers`), and if two
  clock readings reach the cache out of order one assertion passes twice
  (`ReplayCache.ClockMustNotGoBack`). `ReplayCache.AcceptedAgainExactlyWhen` is the exact condition.

## Assumptions

- A transaction body is atomic, also where it reads rows other than those it locks. In particular
  `Request` and `Decide` in `internal/authority/activation.go` lock different rows.
- Minted identifiers are new. Event, lease and Membership identifiers are step parameters refused by
  their unique keys; grants, activations and invitations are named by their position in their table.
- Hashes are injective and signatures verified: a digest is the request it was taken of, a token hash
  the token.
- A service that fails before its first transaction commits returns, as every service here does; after
  that it may go on. (The flags of a claim are not reset when its transaction rolls back, so a service
  that went on would run unclaimed.)
- `platform.idempotency_key` is a map from caller and key to a digest and an optional response, with a
  completion that matches only a claimed, uncompleted row; the outbox is an append-only log.

## Model

| member | source | states |
|---|---|---|
| `Membership.OneEventPerChange` | internal/membership/service.go:377-418 | Along every history of grants, transitions and advances, a committed operation changes nothing, or raises one Membership's version and appends exactly one event, at the new version, describing the new row |
| `Membership.VersionDeterminesRow` | internal/membership/service.go:286-291 | Versions never fall; two states of one history with the same version of a Membership hold the same row, and the event with that version describes it |
| `Membership.ConsumerConverges` | internal/membership/service.go:548-604 | A consumer sent every event in any order with any duplicates, keeping the highest version, holds exactly the authoritative rows |
| `Membership.OneEventPerVersion` | internal/membership/service.go:606-614 | One event carries each version of a Membership |
| `Membership.RunKeeps` | internal/membership/service.go:155-201 | Every history keeps: events in version order, each row published as it stands, event identifiers unique, one active Membership per slot; and rows only evolve, revoked rows staying revoked |
| `Projection.Converges` | internal/membership/advance.go:3-18 | Delivered in any order with duplicates, a log whose versions grow leaves exactly the last event of each key |
| `Projection.DeliveryKeepsHighest` | internal/membership/advance.go:3-18 | From any copy, a delivery leaves each key at the highest version seen, from the copy or the delivery and nowhere else |
| `MembershipService.Service.Transition` | internal/membership/service.go:377-418 | Succeeds exactly when the command is well formed, the Membership is the Tenant's, its status permits the action, its version is the one expected and a restore's slot is free; then revoke leaves it revoked, suspend and restore swap active and suspended, at one version more with one event; each refusal has its own condition and changes nothing |
| `MembershipService.Service.Grant` | internal/membership/service.go:155-201 | Succeeds exactly for a well-formed request with no active Membership of the same person in the context; writes one active row at version 1 with its event |
| `MembershipRules.TransitionExactlyWhen` | internal/membership/state.go:62-75 | The same of the transition function, over rows, version, reason and slot |
| `MembershipRules.GrantExactlyWhen` | internal/membership/service.go:155-201 | A grant succeeds exactly when well asked, its identifiers new and its slot free, and writes that one row; otherwise each refusal by its condition |
| `MembershipRules.RevokedIsForGood` | internal/membership/state.go:118-135 | After a successful revoke no continuation of the history holds that Membership anything but revoked |
| `MembershipRules.RestoreUndoesSuspend` | internal/membership/state.go:62-75 | A restore after a suspension gives the row back at two versions more, exactly when no other active Membership has taken the slot |
| `MembershipRules.AdvanceExactlyWhen` | internal/membership/advance.go:124-154 | A row of the Tenant at or below the version named moves to one past it, told by the event type of the status it keeps; one past it is left; another Tenant's is not found |
| `MembershipService.Service.AdvanceVersions` | internal/membership/advance.go:79-122 | With anything interleaved before each Tenant's transaction: what committed is whole Tenants of the report, all of it on success, each Membership in it above its Above, each event one past one, and the answer tells each advance; with nothing in between every row is at its target. Succeeds whenever the reason is given and every Membership is there |
| `MembershipService.Service.AdvanceOne` | internal/membership/advance.go:124-154 | One row ends at the larger of its version and Above plus one, its status unchanged and no other row touched, and publishes and names an event only when it moved |
| `MembershipService.Service.AdvanceTenant` | internal/membership/advance.go:102-121 | One Tenant's advances in one transaction: all of them applied and answered, or none and nothing changed |
| `MembershipService.Service.Recover` | internal/httpapi/handlers_recovery.go:194-236 | Whether it succeeds or stops half way, the events of a recovery made from a consumer's earlier report give no later copy of that consumer access it does not hold |
| `MembershipService.AdvancesOf` | internal/httpapi/handlers_recovery.go:209-217 | The advances are exactly the findings authority holds and the consumer is ahead of |
| `MembershipService.Partition` | internal/membership/advance.go:87-97 | Each Tenant of the report once, with exactly its advances, in order and with repetition |
| `MembershipService.SortSlice` | internal/membership/advance.go:98-104 | The same elements, with multiplicity, in key order |
| `MembershipService.SentAgainPublishesNothing` | internal/membership/advance.go:124-154 | A report whose Memberships are all past their Above changes no row and publishes nothing |
| `Advance.TargetIsLargest` | internal/membership/advance.go:55-60 | The target is the least version that is at least the current one and above every Above reported |
| `Advance.RowsAfterIgnoresOrder` | internal/membership/advance.go:79-122 | Neither order nor repetition of a report matters |
| `Advance.SentAgain` | internal/membership/advance.go:79-122 | Applying a report twice is applying it once |
| `Advance.AdvanceNeverWidens` | internal/membership/advance.go:11-18 | Whichever of a report's advances committed, whatever authority's rows were, wherever the consumer's copy has moved since, and whatever part of the events arrives in whatever order: it gains no access it does not hold |
| `Advance.AdvanceConverges` | internal/membership/advance.go:11-18 | Once authority's version is past the one reported, a consumer sent every event holds authority's row, whether its copy is the one reported or came from the history since |
| `BatchSteps.RunKeeps` | internal/membership/batch.go:527-672 | The batch invariant holds in every run of any number of requests, at any clock readings |
| `BatchRules.BeginExactlyWhen` | internal/membership/batch.go:557-606 | A lease is taken exactly of the Tenant's preview no more than 15 minutes old, or of its execution whose heartbeat is more than 30 seconds old and with no other allowance asked for; each refusal has its own condition |
| `BatchRules.ItemExactlyWhen` | internal/membership/batch.go:677-706 | An open item commits exactly when its transition may be made at the version previewed, moving that one row and settling that one item; otherwise nothing changes |
| `BatchRules.RecordExactlyWhen` | internal/membership/batch.go:484-501 | A failure is recorded exactly by the holder of the lease, on an item still without an outcome, and touches no other |
| `BatchRules.CompleteExactlyWhen` | internal/membership/batch.go:654-671 | Completion is the holder's alone, keeps every outcome and settles each open item by whether the preview refused it |
| `BatchRules.ValidExactlyWhen` | internal/membership/batch.go:208-234 | A request is acceptable exactly with one to 500 different identifiers, none nil, an action that is not a grant, and a reason for a revoke; each refusal by its condition |
| `BatchRules.PreviewItemsExactlyWhen` | internal/membership/batch.go:352-382 | Each item is previewed as its row, status and reason permit, with the status it would leave or why it is refused; the preview fails exactly when some refusal is a server fault |
| `BatchProgress.AlwaysFinishable` | internal/membership/batch.go:574-606 | Progress: from every reachable state with a batch executing, some continuation ends with it executed and every item settled |
| `BatchProgress.PromisesKept` | internal/membership/batch.go:612-671 | A standing preview whose items may still be moved and do not stand in each other's way: some continuation executes it with every promised item succeeded |
| `BatchResults.TransitionsOnce` | internal/membership/batch.go:677-706 | Over all requests, takeovers and crashes, no two committed transitions are the same item's |
| `BatchResults.SucceededExactlyWhenCommitted` | internal/membership/batch.go:677-706 | An item is succeeded exactly when its own event committed; that event is at the version read plus one with exactly the status the preview promised |
| `BatchResults.OutcomesFinal` | internal/membership/batch.go:484-501 | An outcome once written never changes, nor does anything the preview stored |
| `BatchResults.LostForGood` | internal/membership/batch.go:709-718 | A request that lost the lease changes nothing in the database ever again |
| `BatchResults.TakeoverFencesOthers` | internal/membership/batch.go:460-478 | A takeover takes the lease from every other request of the batch |
| `BatchResults.AttemptedInOrder` | internal/membership/batch.go:616-652 | In every reachable state the attempted items are a prefix, in position order, of those that would change, and recorded failures exceed the tolerance by at most one |
| `BatchResults.HolderTracksRows` | internal/membership/batch.go:557-652 | While a request holds the lease, its loaded items and loop position describe the stored rows, and its failure count is the stored one plus the successes it did not hear of, before an item and while recording a failure |
| `BatchResults.AllowanceExceeded` | internal/membership/batch.go:616-671 | In every run, an error_allowance outcome means recorded failures and unheard successes of the completing request add up to the tolerance plus one; the recorded ones alone do exactly when it heard of all |
| `BatchResults.UnheardCounted` | internal/membership/batch.go:622-640 | Unheard successes are counted by the request's own steps; a request all of whose commits were acknowledged has none |
| `BatchResults.ExecutedCountsConserved` | internal/membership/batch.go:654-671 | An executed batch leaves no item without an outcome; refused_at_preview equals would_not_change, and succeeded, failed and error_allowance add up to would_change |
| `BatchResults.PromiseKeptExactlyWhen` | internal/membership/service.go:421-437 | A promised item's transition succeeds exactly when the version is still the one read and a restore's slot is free |
| `BatchLimits.PreviewPromisesARefusedRestore` | internal/membership/batch.go:352-382 | A history after which the preview promises a restore that the command refuses |
| `BatchLimits.AllowanceWithoutFailure` | internal/membership/batch.go:616-671 | A run with a lost acknowledgement that ends with an error_allowance outcome and no failure recorded |
| `BatchService.PreviewsItems` | internal/membership/batch.go:303-314 | The loop evaluates every item as its command would, stops at a server fault, and its two counters partition the items |
| `BatchService.Service.PreviewBatch` | internal/membership/batch.go:256-349 | The whole preview is the protocol's preview step; a batch it returns is the stored one: the items as previewed, expiring 15 minutes on, with no lease; it fails exactly when the request is not acceptable, the identifier is taken or an item meets a server fault |
| `BatchService.Counts` | internal/membership/batch.go:179-194 | The loop's three counters are the numbers of succeeded, failed and not attempted items |
| `BatchService.Service.ExecuteBatch` | internal/membership/batch.go:527-672 | With anything interleaved and any commit fates, the loop is a run of the protocol after which the request acts no more; a batch it returns is the stored one with conserved counts, executed under its lease or, for an adopted claim, as it had ended. Undisturbed and with every commit heard, it succeeds exactly when it may take the lease: a preview up to 15 minutes old, or an execution quiet for more than 30 seconds; otherwise it is refused by the condition it failed, with nothing changed |
| `BatchService.Service.AttemptsItems` | internal/membership/batch.go:612-652 | The loop stops at the end, at the first item past a spent allowance, or with the request ended |
| `BatchService.Service.ExecuteItem` | internal/membership/batch.go:677-706 | One item transaction is exactly the protocol's next step: it commits exactly when the lease is held and the transition may be made at the version previewed, and the loop goes on, to recording the failure, or to an end when the lease was lost |
| `BatchService.Service.RecordFailure` | internal/membership/batch.go:630-652 | Recording a failure is exactly the protocol's next step: it writes that one outcome under the lease, and the loop goes on only when it was recorded |
| `BatchService.Service.Completes` | internal/membership/batch.go:654-671 | Completion is exactly the protocol's next step; the batch it returns is the stored one, executed under this lease with every outcome kept and every open item settled |
| `AuthoritySteps.RunKeeps` | internal/authority/activation.go:236-429 | The invariant of grants, activations and events holds in every run, with the clock moving |
| `AuthorityRules.RequestExactlyWhen` | internal/authority/activation.go:236-324 | A request succeeds exactly with a duration from one second to the longest allowed, a reason, an unrevoked eligible grant of the holder's own, none running and none waiting less than a day; each refusal by its own condition; it adds one activation of the whole seconds asked for and lapses what waited longer |
| `AuthorityRules.DecideExactlyWhen` | internal/authority/activation.go:328-384 | A decision succeeds exactly with a reason, on an undecided activation, by another holder of its scope, at most 24 hours after the request by the service's clock; approved it runs for its seconds from now; each refusal by its own condition |
| `AuthorityRules.EndExactlyWhen` | internal/authority/activation.go:389-429 | An end succeeds exactly with a reason, on a running activation, by its principal or a provider in force |
| `AuthorityRules.GrantExactlyWhen` | internal/authority/administration.go:134-178 | A grant succeeds exactly with a Principal and a reason, once any grant exists, where the Principal holds no unrevoked grant of the scope; it adds that row alone |
| `AuthorityRules.RevokeExactlyWhen` | internal/authority/administration.go:182-249 | A revocation succeeds exactly with a reason, on an unrevoked grant that is not the only governing one; it revokes that grant alone |
| `AuthorityRules.BootstrapExactlyWhen` | internal/authority/authority.go:196-266 | The bootstrap writes the first grant exactly when there is none, and answers existing exactly when the one grant there is the same Principal's from a bootstrap |
| `AuthorityRules.BumpExactly` | internal/authority/publication.go:195-248 | Every version gains the margin, and exactly the published grants that are revoked, or eligible with nothing running, are withdrawn, each once, at the version each then holds |
| `AuthorityRules.StateTells` | internal/authority/publication.go:105-126 | A published state names the grant, whether it is revoked, and the activation running under it exactly while one runs, with its end |
| `AuthorityRules.InForceForWhatWasAsked` | internal/authority/activation.go:147-169 | Over every run: an activation traces to one request step, and an approved one nobody ended is in force until exactly the whole seconds of the duration that step asked for have passed since its decision |
| `AuthorityResults.ConsumerAgreesWithTables` | internal/authority/publication.go:105-189 | A consumer sent every event in any order with duplicates, keeping the highest version and reading EndsAt on its own clock, confers each published grant at exactly the instants the tables do from now on, through unannounced denials, lapses and natural ends |
| `AuthorityResults.OnlyPublishedScope` | internal/authority/publication.go:74-103 | Only grants of the published scope are told, at versions the grant has reached |
| `AuthorityResults.RestoreNeverWidens` | internal/authority/publication.go:195-248 | After a restore, the bump's events never widen any copy at any instant, and withdraw every grant that confers nothing, within the version margin |
| `AuthorityResults.BumpAppendsWithdrawn` | internal/authority/publication.go:208-248 | The bump appends exactly the withdrawn grants, each at the version it holds with the state it has |
| `AuthorityResults.WithdrawnStateConfersNothing` | internal/authority/publication.go:195-206 | A withdrawn grant's published state confers nothing at any instant |
| `AuthorityResults.AtMostOneOpen` | internal/authority/activation.go:147-169 | Each grant has at most one activation pending or in force in total |
| `AuthorityResults.ApprovedByAnotherAndBounded` | internal/authority/activation.go:328-384 | An activation in force that needed approval was decided by another Principal who then held an unrevoked grant of its scope; none is in force longer than the maximum after its decision |
| `AuthorityResults.RevokedForGood` | internal/authority/administration.go:182-249 | A revoked grant never confers authority again in any continuation, in the tables or in a published state |
| `AuthorityResults.StandingNamesOne` | internal/authority/authority.go:66-77 | The activation a standing names is the only candidate, so the read's order is irrelevant |
| `AuthorityResults.StandingIsAuthority` | internal/authority/authority.go:79-102 | In force means exactly that some grant of the Principal for this service's scope confers authority now |
| `AuthorityResults.AlwaysGoverned` | internal/authority/administration.go:199-227 | From the first bootstrap on some unrevoked governing grant exists, and only the first row is a bootstrap's |
| `AuthorityResults.BootstrapDecides` | internal/authority/authority.go:196-266 | Reading two rows decides as the whole table would, and a rerun reported as existing names a grant still unrevoked |
| `AuthorityInvariant.TopIsInForce` | internal/authority/publication.go:105-115 | The in-force read finds an activation of the grant in force, or there is none |
| `AuthoritySteps.AnotherGoverns` | internal/authority/administration.go:199-227 | When the count of governing grants is not one, another grant governs beside the one revoked |
| `ProviderService.Service.Bootstraps` | internal/authority/authority.go:196-266 | The two-row loop and insert: writes the one emergency grant exactly when there was none, answers existing exactly for the same Principal's bootstrap, refuses by condition otherwise |
| `ProviderService.Service.Grants` | internal/authority/administration.go:134-178 | Succeeds exactly when some grant exists, Principal and reason are given and the Principal holds no unrevoked grant of the scope; adds that row and publishes it alone; each refusal has its own condition |
| `ProviderService.Service.Revokes` | internal/authority/administration.go:182-249 | The loop that fills the active map and counts governing grants: succeeds exactly with a reason on an unrevoked grant that is not the last governing one, revokes it alone, and some grant still governs; each refusal has its own condition |
| `ProviderService.Service.Requests` | internal/authority/activation.go:236-324 | Succeeds exactly when the duration, the reason, the grant, its holder, and what runs or waits permit it; the activation has the whole seconds asked for, and runs at once exactly when no approval is required; each refusal has its own condition and changes nothing |
| `ProviderService.Service.Decides` | internal/authority/activation.go:328-384 | Succeeds exactly with a reason, on an undecided activation requested at most 24 hours ago, by another holder of the scope; in force afterwards exactly when approved, for its seconds from now; each refusal has its own condition |
| `ProviderService.Service.Ends` | internal/authority/activation.go:389-429 | Succeeds exactly with a reason, on an activation in force, by its principal or a provider in force; it is not in force after, and nothing else moves |
| `ProviderService.Service.PublishGrant` | internal/authority/publication.go:127-189 | For a published scope the version rises by one and one event at it says what the tables confer; no other grant changes, and an unpublished scope says nothing |
| `ProviderService.Service.PublishWithdrawnGrants` | internal/authority/publication.go:208-248 | Collecting the withdrawn grants and publishing them one by one is the withdrawn publication, and it reports how many |
| `ProviderService.Service.Bumps` | internal/restore/restore.go:83-110 | Every version gains the margin of 1,000,000,000, and the events appended withdraw exactly the published grants that confer nothing, each once, as many as it reports; the invariant stays |
| `IdempotencyResults.EffectsOnce` | internal/db/idempotency.go:233-273 | Under one key only one request of a command that does not adopt ever commits anything, a command of one transaction commits once, and all effects under a key are of one request content |
| `IdempotencyResults.KeyHeldExactlyByEffect` | internal/db/idempotency.go:17-36 | A key is held exactly when an effect committed under it; a rolled-back attempt leaves none |
| `IdempotencyResults.EffectCommitsWithRecord` | internal/db/idempotency.go:332-361 | A command of one transaction commits its effect with the response rendered from it less what is withheld, exactly when that is a success the view renders |
| `IdempotencyReplay.ReplaysFaithfully` | internal/httpapi/idempotency.go:122-162 | For every command but one that adopts, any replay equals what the first caller was sent less what is withheld, recorded with the effect or after it |
| `IdempotencyReplay.AdoptedReplayWasSent` | internal/httpapi/idempotency.go:122-162 | A record written after the response, adopted or not, is what some request sent under the key less what is withheld |
| `IdempotencyResults.SingleReplaysFaithfully` | internal/httpapi/idempotency.go:250-279 | For a command of one transaction any replay equals what the first caller was sent less what is withheld |
| `IdempotencyResults.RetryRunsNothing` | internal/db/idempotency.go:233-273 | A request whose key is held changes nothing and is answered by content: refused, replayed, or in progress; but for an adopting command whose first use never completed |
| `IdempotencyResults.SettledForGood` | internal/db/idempotency.go:332-361 | Once a command of one transaction committed under a key, no later step adds an effect under it or changes its record |
| `IdempotencyResults.NothingWithheldIsRecorded` | internal/db/idempotency.go:291-320 | No record of either kind holds a withheld member, and each is rendered from an effect under its key |
| `IdempotencyResults.LostAnswerStaysLost` | internal/db/idempotency.go:31-36 | A request that dies before its late completion, or whose completion or later transaction fails, leaves the key uncompleted in every continuation |
| `IdempotencyResults.RunKeeps` | internal/httpapi/idempotency.go:122-162 | The invariant of keys, effects, requests and answers holds in every run |
| `IdempotencyRules.CarriedExactlyWhen` | internal/db/idempotency.go:157-162 | A request carries the claim of its scope, key and content exactly when scope and key each hold a character that is not white space |
| `IdempotencyRules.OnceForAllArrivals` | internal/db/idempotency.go:65-69 | Over every run: of all requests that arrived with one such scope and key, for a command of one transaction, at most one effect is ever committed; for one that does not adopt, by one request only |
| `IdempotencyRules.FirstUseRuns` | internal/db/idempotency.go:332-361 | A first use whose body returns and commits leaves one effect, the key held, and for a command of one transaction its record: the rendered members less those withheld |
| `IdempotencyRules.FailureLeavesNothing` | internal/db/idempotency.go:233-273 | A first use whose body or commit fails leaves no effect and no key, and is answered a problem |
| `IdempotencyRules.GoesOnExactlyWhen` | internal/db/idempotency.go:17-36 | After its first commit a command of several transactions goes on to another exactly when it has more to do; a command of one answers |
| `IdempotencyRules.RendersExactlyWhen` | internal/httpapi/idempotency.go:250-279 | A view renders exactly when the result has every field it names, and shows those fields and nothing else |
| `IdempotencyService.Pending.Claims` | internal/db/idempotency.go:233-273 | Setting the flags step by step is the claim function, and a stopped claim leaves the table alone |
| `IdempotencyService.Pending.Responds` | internal/db/idempotency.go:332-361 | Recording inside the claiming transaction is the respond function, and a refusal changes nothing |
| `IdempotencyService.Surface.Transacts` | internal/db/binding.go:450-467 | One scoped transaction, claim to commit, is the protocol's step |
| `IdempotencyService.Surface.Replies` | internal/httpapi/idempotency.go:126-149 | A record is owed exactly by a made, uncompleted claim answered with a status from 200 to 299 whose body holds every withheld member, and is that answer without them; nothing is stored yet |
| `IdempotencyService.Surface.Records` | internal/httpapi/idempotency.go:151-162 | The late completion changes no key but the request's own, and that one only from no response to this one; refused or lost, it changes nothing |
| `IdempotencyService.Surface.Serve` | internal/httpapi/idempotency.go:83-163 | A request carries its claim exactly when scope and key are not blank. With anything interleaved, a success a command of one transaction answers live is in the record less what is withheld; undisturbed, such a command's first use that is sendable and commits answers live with its one effect, and its retry under a held key runs nothing and is answered by what the key table holds alone |
| `IdempotencyService.LiveIsRecorded` | internal/httpapi/idempotency.go:250-279 | A success sent live by a command of one transaction is recorded |
| `InvitationResults.AcceptedExactlyWhenGranted` | internal/invitation/service.go:301-453 | Under every interleaving an invitation is accepted exactly when one Membership was granted from it, once, for the Principal confirmed to hold the address the row holds, before expiry |
| `InvitationResults.SettledForGood` | internal/invitation/state.go:94-101 | Settled states are never left, and a pending row never loses its token, context or expiry |
| `InvitationResults.OneAcceptanceWins` | internal/invitation/service.go:384-389 | Of any acceptances of one token at most one is told it joined |
| `InvitationResults.SettledIsNotAcceptable` | internal/invitation/service.go:369-389 | An acceptance whose invitation settled after its read is refused as not acceptable and changes nothing |
| `InvitationResults.AcceptsExactlyWhen` | internal/invitation/service.go:369-443 | The transaction accepts exactly when the invitation still stands as matched, its Tenant is active and no active Membership is there; the unique index is never what refuses |
| `InvitationResults.PublishedExactly` | internal/invitation/state.go:291-304 | An invitation publishes that it was requested, then what settled it, and nothing else |
| `InvitationResults.OneOutstanding` | internal/invitation/state.go:64-70 | One outstanding invitation per Tenant, normalised address and context |
| `InvitationResults.ExpiresOnlyWhenLapsed` | internal/invitation/service.go:497-520 | Only the sweep expires an invitation, and only past expiry by both clocks |
| `InvitationResults.SweepRows` | internal/invitation/service.go:549-591 | The sweep expires exactly the rows it selected |
| `InvitationResults.SweepDrains` | internal/invitation/service.go:506-518 | A sweep with room to spare leaves no lapsed row that it could lock |
| `InvitationResults.ByTokenUnique` | internal/invitation/service.go:202-229 | The read and the reload select the same row, the only one with the token |
| `InvitationRules.ReadsExactlyWhen` | internal/invitation/service.go:348 | The read goes on exactly when some row holds the token, is pending and expires after the instant, and names that row's Tenant and address |
| `InvitationRules.WellFormedExactlyWhen` | internal/invitation/state.go:236-246 | A token is well formed exactly when it is 43 characters, all of the URL alphabet but for line breaks, which the decoder skips, with no single character left over past a multiple of four |
| `InvitationRules.IssuedIsPresentable` | internal/invitation/state.go:236-246 | Every token of 43 characters of the alphabet can be presented |
| `InvitationRules.SameAddressExactlyWhen` | internal/invitation/state.go:248-256 | Two targets are one address exactly when, without the white space around them, they differ at most in the case of letters |
| `InvitationRules.IssueExactlyWhen` | internal/invitation/service.go:113-183 | An invitation is issued exactly with an address, a known subject type, a lifetime of at most 30 days, a new token and none outstanding to the address in the context; it is pending for seven days unless another lifetime was asked for |
| `InvitationRules.AcceptDecides` | internal/invitation/service.go:365-450 | The acceptance succeeds exactly on a row that still stands as matched, whose Tenant is known and active, for a caller without an active Membership there and fresh identifiers, and leaves the row accepted and the one Membership granted with its event; each refusal by its own condition |
| `InvitationService.Service.AcceptInvitation` | internal/invitation/service.go:301-453 | The three phases with anything in between are a run; a caller told it joined holds an invitation accepted by it, before expiry, with its Membership granted. With nothing in between it succeeds exactly when the token is presentable and of a pending, unexpired row, the identity service says yes, the Tenant is active, the caller has no active Membership there, the identifiers are fresh and the commit is heard; it then leaves the row accepted by the caller and one active Membership of its Tenant, workspace and kind with its event, and nothing else moved; each refusal by its own condition, with nothing changed |
| `InvitationService.Service.Issues` | internal/invitation/service.go:113-183 | Writes the pending row and its notice exactly when the request is well asked and no other stands in its way |
| `InvitationService.Service.Accepts` | internal/invitation/service.go:365-450 | The acceptance transaction is the protocol's step, and the answer is the request's |
| `InvitationService.Service.Revokes` | internal/invitation/service.go:460-495 | Succeeds exactly on a pending row of the caller's Tenant, and moves it alone; not found and settled by their own conditions |
| `InvitationService.Service.ExpireLapsed` | internal/invitation/service.go:532-591 | The loop expires each row the query locked once, counts them, and changes nothing else; reporting fewer than it had room for, it leaves no lapsed row it could lock |
| `AdmissionResults.AdmittedResolves` | internal/httpapi/caller.go:158-217 | Whoever authentication admits resolves without error to a scope of exactly one kind with the token's Principal; the kind follows from token and route, and a Tenant scope needs the records and two factors |
| `AdmissionRules.AdmittedExactlyWhen` | internal/httpapi/authentication.go:405-464 | Exactly five kinds of call are admitted, by token, route and records: a person about itself, an administrator in its Tenant, a registered reporter, a registered consumer, and a provider in force or on the activation routes; each with the caller it is |
| `AdmissionRules.RefusedExactlyWhen` | internal/httpapi/authentication.go:483-544 | Paused is answered exactly to an administrator's change while paused, records unavailable exactly to whoever needs records that cannot be read, and forbidden to everybody else |
| `AdmissionRules.PresentsExactlyWhen` | internal/httpapi/authentication.go:405-464 | A token is accepted exactly as a person's for a Tenant with two factors, a person's for none with its assurance, or a workload's with its owner |
| `AdmissionRules.StandingExactlyWhen` | internal/authority/authority.go:66-102 | Holder, emergency and activation of a standing, each exactly by a row of the tables |
| `AdmissionRules.ResolvesTo` | internal/httpapi/caller.go:158-217 | The scope each of the five kinds of call acts in, with the provider authority it acts on |
| `AdmissionRules.EntryExactlyWhen` | internal/db/binding.go:436-467 | A key is claimed exactly where the transaction may change state; an entry point opens exactly to its own kind of scope, with a reason for providers and consumers; evidence is written exactly for privileged scopes and names the actor, correlation, authority, reason and Tenant |
| `AdmissionResults.OpensOnlyItsOwn` | internal/db/binding.go:436-449 | A scope of one kind opens exactly its own kind's entry points |
| `AdmissionResults.ProviderScopeNamesItsAuthority` | internal/httpapi/authentication.go:483-544 | A provider scope's authority is what the records hold, and an eligible holder is admitted to the activation routes alone |
| `AdmissionResults.ProviderHasAuthorityNow` | internal/httpapi/authentication.go:268-318 | Over every history of grants, a person outside the activation routes opens the provider scope only while a grant of theirs confers authority |
| `AdmissionResults.NestingOnlyNarrows` | internal/db/binding.go:707-781 | However entry points nest, actor and correlation stay, a bound Tenant stays, and the acting-provider mark arises only from a provider scope |
| `ScopedAccessResults.EffectHasEvidence` | internal/db/binding.go:940-997 | In every run of nested and concurrent calls, a committed provider, consumer or acting-provider write has an evidence row with its actor, correlation and authority, committed before its transaction began; its own call's, where the entry point records |
| `ScopedAccessResults.RollbackKeepsEvidence` | internal/db/binding.go:963-968 | A call that rolled back keeps its evidence in every continuation and never has a write or a key |
| `ScopedAccessResults.CrashKeepsEvidence` | internal/db/binding.go:784-790 | A call that dies at any point keeps the evidence it committed and never has a write or a key |
| `ScopedAccessResults.UnrecordedLeavesNothing` | internal/db/binding.go:963-968 | A call whose evidence could not be written, or that its scope does not open, leaves neither evidence nor write nor key |
| `ScopedAccessResults.EvidenceIsOfACall` | internal/db/binding.go:322-342 | Every evidence row is of one admitted call, one row a call, with an authority and a reason |
| `ScopedAccessResults.EffectIsItsCallers` | internal/db/binding.go:707-781 | A write is the root caller's own, in the Tenant it was bound to, and the acting-provider mark is a provider's |
| `ScopedAccessResults.EffectHoldsItsKey` | internal/db/binding.go:450-467 | Every committed write is of an entry point that claims the request's key, and the key is held for its call |
| `ScopedAccessResults.RunKeeps` | internal/db/binding.go:940-997 | The invariant of evidence, calls, writes and keys holds in every run |
| `ScopedAccessService.Pools.With` | internal/db/binding.go:940-997 | With anything interleaved, a call succeeds only by committing, leaves nothing written otherwise, and leaves its one kind of evidence exactly when a privileged scope opens the entry point and the record could be written. With nothing interleaved it succeeds exactly when the scope opens the entry point, the key is free, no step fails and it writes only where it may |
| `ScopedAccessService.Pools.Records` | internal/db/binding.go:947-968 | The scope is checked before the evidence, and the evidence is written before anything else and touches no key or write |
| `ScopedAccessService.Pools.Ends` | internal/db/binding.go:970-997 | The commit happens exactly when asked and the key is free, and adds every write of the body, or none |
| `AdmissionResults.KeysFollowStanding` | internal/httpapi/idempotency.go:172-182 | A person without a Tenant keeps one key namespace exactly while being in force does not change |
| `AdmissionRules.SharesKeysExactlyWhen` | internal/httpapi/idempotency.go:172-182 | Two callers share a key namespace, as the table stores it, exactly when they are one Principal acting for itself, as a provider, or in one Tenant |
| `AdmissionResults.ActivationMovesItsOwnKeys` | internal/httpapi/idempotency.go:172-182 | A request activated without approval, sent again under its key after its record was stored, finds the key unclaimed where the record would have been replayed, runs again and is refused as in force |
| `AdmissionResults.ActivationKeysReached` | internal/authority/activation.go:236-324 | Such a request is reached by a bootstrap and one eligible grant |
| `Review.CountsStayTrueExactlyWhen` | internal/authority/review.go:175-189 | A review's stored counts stay those of its period in every continuation exactly when no access stamped in it is uncommitted |
| `Review.LateCommitUndercounts` | internal/authority/review.go:175-189 | A run in which an access commits into a period already reviewed as empty |
| `Review.LaterIsNeverCovered` | internal/authority/review.go:171-189 | An access that starts after a review is covered by neither it nor an earlier one |
| `Review.NobodyReviewsItself` | internal/authority/review.go:348-400 | Every review is another provider's, of a period that was over |
| `Review.AccessesConserved` | internal/authority/review.go:202-214 | Per Principal, reviewed and unreviewed accesses add up to all; the reviews count at least the reviewed ones, exactly those when no access is in two periods |
| `Review.OverdueExactlyWhen` | internal/authority/review.go:450-473 | A Principal is overdue exactly when a provider access of it, in no reviewed period of it, is more than seven days old |
| `Review.AccessReview.Records` | internal/authority/review.go:348-400 | A review is recorded exactly when the request states a period and an outcome, says what was looked at, is of another Principal and its period is over, with the number of that Principal's accesses in the period; each refusal has its own condition; the attempt is recorded first |
| `Review.RecordExactlyWhen` | internal/authority/review.go:348-400 | The same of the recording transaction, which adds that one review |
| `Review.CountedExactly` | internal/authority/review.go:175-183 | The two counts are the numbers of the Principal's provider accesses stamped from the start to before the end, and of the emergency ones among them |
| `Review.UnreviewedExactly` | internal/authority/review.go:202-214 | The report counts exactly the accesses that fall in no reviewed period of their Principal |
| `ReplayCache.NeverAcceptedTwice` | cmd/organization-devissuer/clientcredentials.go:275-308 | While the clock does not go back no assertion is accepted twice |
| `ReplayCache.AcceptedAgainExactlyWhen` | cmd/organization-devissuer/clientcredentials.go:297-308 | With any clock readings, an identifier accepted before is accepted again exactly when the assertion passes the checks and some reading since was past the remembered expiry |
| `ReplayCache.FirstUseExactlyWhen` | cmd/organization-devissuer/clientcredentials.go:275-308 | An identifier not accepted before is accepted exactly when its assertion passes the checks, whatever else was |
| `ReplayCache.Remembers` | cmd/organization-devissuer/clientcredentials.go:299-307 | The memory holds exactly the last acceptances whose expiry no later reading has passed |
| `ReplayCache.NothingFarAhead` | cmd/organization-devissuer/clientcredentials.go:284-289 | No entry expires more than the horizon after the reading that made it |
| `ReplayCache.MemoryIsBounded` | cmd/organization-devissuer/clientcredentials.go:299-303 | After a check that reaches the memory nothing in it is older than the horizon and the skew |
| `ReplayCache.ForgetsExpiredIdentifiers` | cmd/organization-devissuer/clientcredentials.go:299-307 | A run in which an identifier is used again after eviction |
| `ReplayCache.ClockMustNotGoBack` | cmd/organization-devissuer/clientcredentials.go:275-308 | A run with readings out of order in which one assertion is accepted twice |
| `ReplayCache.Issuer.Evicts` | cmd/organization-devissuer/clientcredentials.go:299-303 | Walking the map in any order deletes exactly the entries more than 30 seconds past their expiry |
| `ReplayCache.Issuer.Authenticates` | cmd/organization-devissuer/clientcredentials.go:275-308 | Accepted exactly when the assertion names the client, itself as audience, an expiry at most 30 seconds past and 5 minutes ahead, a start at most 30 seconds ahead and an identifier not held; each refusal by its own condition; the memory keeps what has not expired and adds what was accepted; and an assertion accepted before is refused while the clock did not go back |
| `Paging.WalkReturnsAll` | internal/membership/service.go:510-545 | Following Next over an unchanging table returns the whole selection in key order, every page but the last full, Next absent exactly on the last, in as many pages as that takes |
| `Paging.NeededIsLeast` | internal/db/page.go:27-35 | That number of pages holds the rows and one fewer does not |
| `Paging.NoRowTwice` | internal/membership/service.go:271-278 | However the table changes between pages, no row is returned twice and keys only grow |
| `Paging.NothingStableMissed` | internal/membership/service.go:271-278 | A walk that ends returned every row that matched throughout |
| `Paging.SelectAfter` | internal/db/page.go:37-44 | Moving the cursor to a page's last row leaves exactly the rows after it |
| `Paging.List` | internal/membership/service.go:510-545 | Of the rows of the Tenant that are asked for, in key order, the first 50 or as many as asked for, with the last named exactly when more follow; refused exactly when the size is negative or over 100 |
| `Paging.ListsExactly` | internal/membership/service.go:510-545 | The selection is the one sequence in key order of exactly the Tenant's rows past the cursor with the status, workspace and Principal asked for |
| `Paging.ReadPage` | internal/membership/service.go:527-543 | Reading one row more and cutting it off gives that page |
| `Paging.PageIsUnique` | internal/membership/service.go:539-543 | There is one such page |

## Left out

- Projection.Converges: states convergence for a consumer sent every event and nothing else; a consumer that missed events converges when they arrive, which is the same statement later.
- The linkage of a batch to the one it continues.
- The view of a batch that expired before it was executed, and GetBatch.
- The Tenant's security version carried in a Membership event, and who an event names as its actor.
- 64-bit overflow of versions and counts: both are unbounded here.
- Idempotency: a response larger than the captured bound and withheld members below the top level; the one in use is at the top.
- Idempotency for adopting commands: effects may repeat by design, and what keeps a batch's items single is the batch protocol.
- Unregistered scope and kind names, and nil identifiers, in grant requests: the types exclude them.
- The delivery of invitations, the lookup page and the resolver's read.
- Purging of access records, batches and keys.
- ScopedAccess: a key another call holds only refuses; what a held key answers is the idempotency model.
- Evidence written inside the transaction it describes, beside the evidence written before it.
- Row-Level Security policies, roles and SQL: a Tenant-bound read is a filtered table.
- Token verification, JWKS, JSON decoding, HTTP rendering and problem mapping.
- Tenant, workspace, offboarding and organization lifecycles, delivery, configuration and process supervision.
