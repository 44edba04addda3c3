# Verified model of the orchestrator's ledgers, limits and read models

The orchestrator turns an offer into video creatives by calling paid providers. This project models the
parts of it in which a mistake costs money, leaks a privilege or shows a wrong state, and proves what they
keep over every input and every run.

- **Paid effects.** `EffectLedger` holds the quota and effect rows of one organization, every ledger
  operation as one atomic step, and the class `PostgresEffectLedger` that performs those steps in place.
  `ProviderStatus` is the rule that merges provider reports. `EffectRuns` reasons about every finite run of
  operations, `WebhookProtocol` about any number of webhook deliveries, each split into its separate
  transactions, interleaved with workers. `EffectRef` is the signed reference a delivery carries.
- **Rate limit and retries.** `Throttle` reserves send slots, `Retry` is the transport retry loop, and
  `ThrottledRetry` runs any number of retried calls through one throttle.
- **Members and invitations.** `Membership` is the row-level policies, the stored procedure that claims an
  invitation, signing in, and runs of arbitrary sessions.
- **Event read models.** `PipelineEvents`, `Activity` and `Progress` are the activity timeline and the
  progress snapshot as one pass each over the event log.
- **Scripts.** `ScriptText` prints a draft line by line and parses text back into a draft.
- **Index-ordered stores.** `IndexedStore`, `CreatorStore` and `FeedbackStore` are the two JSON stores,
  proved to stand for a plain log of writes.

State that the source updates in place is a class whose methods are proved equal to step functions
(`Reserve`, `MarkFailed`, `Claim`, ...) or to a log of writes; loops over lists are methods with loops. What the
source promises is then proved about those functions and logs.

## How the results fit together

`PostgresEffectLedger`'s methods equal the step functions, `ApplyEvolves` says what one step keeps of a row,
and `RunInvariant` carries the table invariant along every run. `InterleavingIsLedgerRun` shows that any
interleaving of deliveries and workers leaves the ledger as some run of ledger steps does, so quota
conservation, absorption of final statuses and uniqueness of operation ids hold of the whole protocol.
For any number of calls sharing one throttle, `ReachableInv` keeps the log of sends equal to the throttle's
slots for its clock readings and every call's history equal to a prefix of the retry loop. `SendsAreEarliest`
then applies `SlotsAreEarliest` to all sends together, `RateAndConcurrencyBound` applies `WindowBound`, and
`CallsFollowTheLoop` shows that each call ends where `StopsAt` says.

## Where the code does less than its description

- A failed or canceled report for an effect that is uncertain and already bound is stored and then raises;
  the effect stays uncertain (`UncertainBoundFailureIsHalfApplied`), and runs of the ledger lead there
  (`HalfAppliedDeliveryHappens`, `BoundEffectHappens`). `DeliveryReturnsIff` is the exact condition under
  which a delivery returns.
- Repeating a delivery is quiet exactly when the event's prediction id has no surrounding whitespace
  (`RedeliveryIsQuiet`); events that passed verification have none.
- Two different terminal reports do not commute: the first one wins (`TerminalConflictDependsOnOrder`). A
  worker that marks success overwrites even a terminal provider status, which is why four changes of it are
  possible (`FourChangesHappen`).
- `build_activity` with a limit of zero or less returns the whole timeline instead of nothing
  (`ResultShape`).
- `build_progress` counts completed units by distinct item but failed units by event, replays included
  (`RowIsWhatEventsSay`).
- Printing and parsing a script fails when the printed draft has more than 20 beats or its last call to
  action is longer than 500 characters (`ParseUndoesPrint`), text without a call-to-action beat gains one,
  and of text in which no line has spoken content only the first line survives (`ReparseAddsCta`).
- A feedback summary that carries its own `_idx` key overrides the store's index. The run saved last is the
  latest exactly when its summary has no such key or a number that beats all other runs (`LatestIffWins`,
  with a concrete failure in `OwnIndexDefeatsOrder`).
- The retry loop is meant never to repeat a request that may have been sent, but a failure whose cause is a
  pre-send transport error is retried whatever the failure itself is (`RetryableIff`), for example a status
  response other than 429 (`ServerErrorIsResent`). That is the only way: in every schedule exactly such
  failures are resent (`ResentIffMasked`, `EndedCallResentIff`), and without them nothing is
  (`NothingResentWithoutMasking`).

## Model

| member | source | states |
|---|---|---|
| `ProviderStatus.ParseName` | src/orchestrator/db/effects.py:82-85 | Every stored spelling of a provider status is accepted again as the status it denotes. |
| `ProviderStatus.ParseIff` | src/orchestrator/db/effects.py:82-85 | Input is read as a status exactly when it is that status' spelling, in any case and with any white space around it. |
| `ProviderStatus.MergeAdvances` | src/orchestrator/db/effects.py:86-94 | A merge never regresses, keeps a terminal status, reflects what was reported and absorbs a repeated report. |
| `ProviderStatus.FoldIsFirstTerminalOrHighest` | src/orchestrator/db/effects.py:81-94 | Folding the merge over any non-empty sequence of reports stores the first terminal one, or else the highest-ordered one. |
| `ProviderStatus.DeliveryOrderIrrelevant` | src/orchestrator/db/effects.py:81-94 | Reordering and duplicating reports changes nothing when at most one distinct terminal status was reported. |
| `ProviderStatus.TerminalConflictDependsOnOrder` | src/orchestrator/db/effects.py:88-91 | Of two terminal reports the first wins, so they commute exactly when they are equal. |
| `EffectLedger.PostgresEffectLedger.GetEffect` | src/orchestrator/db/effects.py:108-118 | Answers with the stored row or a missing-effect error and changes nothing. |
| `EffectLedger.PostgresEffectLedger.ConfigureQuota` | src/orchestrator/db/effects.py:120-144 | Inserts or changes a limit unless it is negative or below the units in use; the whole new state and the error. |
| `EffectLedger.PostgresEffectLedger.ReserveEffect` | src/orchestrator/db/effects.py:146-225 | Creates a row and charges the quota, or returns the matching row, or raises; the whole new state and the answer. |
| `EffectLedger.PostgresEffectLedger.RecordUncertain` | src/orchestrator/db/effects.py:227-262 | Only a reserved effect becomes uncertain; any other row is returned as it is. |
| `EffectLedger.PostgresEffectLedger.Bind` | src/orchestrator/db/effects.py:264-330 | Binds the stripped operation id, merges the report and turns uncertain back into reserved, or raises on any conflict. |
| `EffectLedger.PostgresEffectLedger.ReportStatus` | src/orchestrator/db/effects.py:332-369 | Merges the report and stores an error type only if one is given. |
| `EffectLedger.PostgresEffectLedger.Succeed` | src/orchestrator/db/effects.py:387-423 | Concludes a reserved effect, overwriting the provider status; repeats are answered, other statuses raise. |
| `EffectLedger.PostgresEffectLedger.Fail` | src/orchestrator/db/effects.py:425-478 | Fails a reserved effect and hands its units back if asked; repeats are answered, other statuses raise. |
| `EffectLedger.PostgresEffectLedger.Reconcile` | src/orchestrator/db/effects.py:480-508 | Concludes exactly the uncertain effects. |
| `EffectRuns.OperationsDeliver` | src/orchestrator/db/effects.py:146-508 | The whole operation table: each effect operation answers exactly under its stated condition, with every field of the row stated, cut error texts included, and otherwise raises the stated error. |
| `EffectRuns.OperationsAreAtomic` | src/orchestrator/db/effects.py:146-508 | Every effect operation raises and changes nothing, or answers with the row as stored then, touching no other row and no other provider's quota. |
| `EffectRuns.SetQuotaStores` | src/orchestrator/db/effects.py:120-144 | An accepted limit is stored and changes no units in use, no other provider and no effect; a refused one changes nothing and raises the stated error. |
| `EffectRuns.ApplyEvolves` | src/orchestrator/db/effects.py:227-508 | Every operation keeps a row's identity, final status and result, bound operation id and advanced provider status; a terminal provider status gives way only to success; uncertain becomes reserved only with an operation id. |
| `EffectRuns.RowsEvolve` | src/orchestrator/db/effects.py:146-508 | The same between any two moments of any run. |
| `EffectRuns.ReserveCharges` | src/orchestrator/db/effects.py:192-215 | The only step that adds a row is a reservation, and it charges exactly its units to its provider. |
| `EffectRuns.ReleaseRefunds` | src/orchestrator/db/effects.py:452-465 | A releasing failure takes exactly the row's units off its provider and no row is refunded before. |
| `EffectRuns.ApplyKeepsUnique` | migrations/versions/20260804_0011_replicate_prediction_lifecycle.py:36-42 | No operation makes two effects of one provider share an operation id. |
| `EffectRuns.RunInvariant` | src/orchestrator/db/effects.py:120-508 | After every run: positive units, a result exactly when succeeded and then provider status succeeded, a provider status and a trimmed id when bound, unique operation ids, quota in use equal to the charges not handed back and within the limit. |
| `EffectRuns.QuotaConserved` | migrations/versions/20260725_0008_durable_jobs.py:271-276 | In every reachable ledger used units are the total of the effects not handed back and every CHECK constraint and the unique index hold. |
| `EffectRuns.LimitIsLastAccepted` | src/orchestrator/db/effects.py:120-144 | After any run a provider has a quota exactly when some limit was accepted for it, and its limit is the last one that was not negative and covered the charges then held. |
| `EffectRuns.GrantedIffItFits` | src/orchestrator/db/effects.py:120-215 | After any run a new effect is granted exactly when its units fit beside the charges still held in the last accepted limit, and a limit is accepted exactly when it is not negative and covers them. |
| `EffectRuns.ReleasedAtMostOnce` | src/orchestrator/db/effects.py:433-465 | An effect's quota is handed back at most once, and only if the effect failed. |
| `EffectRuns.CreatedExactlyOnce` | src/orchestrator/db/effects.py:177-225 | Over any run a key is reported as created once if its row exists and never otherwise. |
| `EffectRuns.ReplayedReserve` | src/orchestrator/db/effects.py:175-190 | Repeating the request that created a key, at any later moment and with any quota, changes nothing and returns the stored row, or raises exactly when the effect is uncertain. |
| `EffectRuns.AtMostFourChanges` | src/orchestrator/db/effects.py:309-323 | Over any run an effect's provider status changes at most four times. |
| `EffectRuns.FourChangesHappen` | src/orchestrator/db/effects.py:400-404 | From any run that left an unreported reserved effect, four further changes do happen. |
| `EffectRuns.ProviderStatusIsFold` | src/orchestrator/db/effects.py:353-366 | Until an effect succeeds its provider status is the fold of all reports delivered for it during the run. |
| `WebhookProtocol.ParsedEventsAreWellFormed` | src/orchestrator/replicate_webhook.py:116-124 | An accepted payload yields a non-empty trimmed prediction id and one of the five valid statuses. |
| `WebhookProtocol.ParseEventIff` | src/orchestrator/replicate_webhook.py:116-124 | A payload is accepted exactly when it has an id and says one of the five statuses, cancelled counting as canceled; it yields the trimmed id and that spelling; otherwise which of the two errors. |
| `WebhookProtocol.AdvanceIsOneOp` | src/orchestrator/replicate_webhook.py:133-173 | Every transaction of a delivery is one ledger operation or none and changes no quota. |
| `WebhookProtocol.InterleavingIsLedgerRun` | src/orchestrator/replicate_webhook.py:127-173 | Any interleaving of deliveries and workers leaves the ledger as a run of ledger operations does. |
| `WebhookProtocol.InterleavedLedgerIsSound` | src/orchestrator/replicate_webhook.py:127-173 | Under any interleaving the table constraints, the row invariant and quota conservation hold. |
| `WebhookProtocol.DeliveriesKeepQuotas` | src/orchestrator/replicate_webhook.py:139-171 | No step of any delivery changes a quota, in any state. |
| `WebhookProtocol.RowsEvolveInterleaved` | src/orchestrator/replicate_webhook.py:127-173 | Between any two moments of any interleaving rows only evolve. |
| `WebhookProtocol.FinalStatusIsAbsorbing` | src/orchestrator/db/effects.py:387-508 | Under any interleaving succeeded and failed are absorbing, the result stays, and it is stored exactly when succeeded, with provider status succeeded. |
| `WebhookProtocol.LateFailureRaises` | src/orchestrator/replicate_webhook.py:162-171 | A late failure of an effect that meanwhile succeeded or became uncertain raises and changes nothing. |
| `WebhookProtocol.NextKeepsInv` | src/orchestrator/replicate_webhook.py:133-173 | Every action keeps what each pending and finished delivery knows about its row. |
| `WebhookProtocol.AcknowledgedEventIsKept` | src/orchestrator/replicate_webhook.py:127-173 | Once a delivery returned, at every later moment the effect is bound to its prediction, its provider status is terminal or at least as advanced as the report, and an unsuccessful report has failed the effect unless the provider status is succeeded. |
| `WebhookProtocol.ApplyReplicateEvent` | src/orchestrator/replicate_webhook.py:127-173 | The three calls on the ledger object equal the three transactions of an uninterrupted delivery. |
| `WebhookProtocol.DeliveryReturnsIff` | src/orchestrator/replicate_webhook.py:133-173 | An uninterrupted delivery returns exactly under a condition on the row and the event; it reports whether status, operation id or provider status changed and touches no quota and no other row. |
| `WebhookProtocol.DeliveryRunsAlone` | src/orchestrator/replicate_webhook.py:127-173 | A delivery that arrives after any interleaving and is not interrupted ends as an uninterrupted delivery does, with the same ledger and answer. |
| `WebhookProtocol.DeliveryWrites` | src/orchestrator/replicate_webhook.py:139-173 | The whole row a returned delivery leaves: id, merged status, effect status, and the provider's reason and error type when it fails the effect. |
| `WebhookProtocol.DeliveryRaises` | src/orchestrator/replicate_webhook.py:133-173 | Which error a delivery raises, and that only the half-applied one wrote anything. |
| `WebhookProtocol.UncertainBoundFailureIsHalfApplied` | src/orchestrator/replicate_webhook.py:148-171 | An unsuccessful report for an uncertain bound effect stores the provider status, then raises and leaves the effect uncertain. |
| `WebhookProtocol.HalfAppliedDeliveryHappens` | src/orchestrator/replicate_webhook.py:148-171 | Any run that left an effect reserved and bound continues by one step to a ledger in which an unsuccessful report for it is half applied. |
| `WebhookProtocol.BoundEffectHappens` | src/orchestrator/db/effects.py:146-330 | Some run leaves a reserved and bound effect, for every key, provider, operation id and status. |
| `WebhookProtocol.RedeliveryIsQuiet` | src/orchestrator/replicate_webhook.py:127-173 | After a delivery returned, repeating it returns False exactly when the prediction id is trimmed, and then at most the stored error type differs. |
| `WebhookProtocol.RedeliveryIsQuietEverywhere` | src/orchestrator/replicate_webhook.py:127-173 | The same for every verified event after any interleaving. |
| `EffectRef.FeedSextets` | src/orchestrator/replicate_webhook.py:24-33 | Decoding the sextets of any byte string reproduces it with no bits left over. |
| `EffectRef.SameBits` | src/orchestrator/replicate_webhook.py:24-25 | Each group of three bytes has the same 24 bits, in order, as its four sextets. |
| `EffectRef.SextetTotal` | src/orchestrator/replicate_webhook.py:24-25 | Four sextets for three bytes, and one more than its bytes for a rest. |
| `EffectRef.CharIsAlphabet` | src/orchestrator/replicate_webhook.py:24-25 | Sextets are written as capitals, small letters, digits, hyphen and underscore, in this order (section 5 of RFC 4648). |
| `EffectRef.ValueMeans` | src/orchestrator/replicate_webhook.py:28-33 | The decoder reads exactly those characters and the two symbols of the standard alphabet. |
| `EffectRef.EncodeShape` | src/orchestrator/replicate_webhook.py:24-25 | The encoder emits only alphabet characters, never padding and never the separator. |
| `EffectRef.PaddingRestored` | src/orchestrator/replicate_webhook.py:28-31 | The decoder restores exactly the padding the encoder dropped. |
| `EffectRef.DecodeUndoesEncode` | src/orchestrator/replicate_webhook.py:24-33 | Unpadded base64url (sections 3.2 and 5 of RFC 4648) round-trips for byte strings of every length. |
| `EffectRef.DecodesUnlessLoneCharacter` | src/orchestrator/replicate_webhook.py:28-33 | Text of data characters decodes exactly when its last group does not hold a single character. |
| `EffectRef.ForeignCharactersAreSkipped` | src/orchestrator/replicate_webhook.py:28-33 | Characters outside the alphabet are skipped wherever they stand. |
| `EffectRef.DecodeUndoesBuild` | src/orchestrator/replicate_webhook.py:36-58 | A reference built for any organization, key and secret decodes to its key. |
| `EffectRef.AcceptedIffSigned` | src/orchestrator/replicate_webhook.py:46-58 | A reference is accepted exactly when its first part decodes to a key and the rest is the encoded digest, under the secret, of organization, colon and key. |
| `EffectRef.AcceptedOnlyAtHome` | src/orchestrator/replicate_webhook.py:36-58 | With collision-free digests, a reference built for one organization and secret is accepted for exactly that organization and secret. |
| `Throttle.AsyncThrottle.constructor` | src/orchestrator/adapters/_throttle.py:41-55 | A fresh throttle has reserved nothing and allows at least one call. |
| `Throttle.AsyncThrottle.Reserve` | src/orchestrator/adapters/_throttle.py:64-74 | Each reservation extends the slot schedule of the clock readings, and the call sleeps exactly until its slot. |
| `Throttle.SlotsAreEarliest` | src/orchestrator/adapters/_throttle.py:66-73 | For any readings the slots respect readings and spacing, and no schedule that does starts any call earlier. |
| `Throttle.SlotIsForced` | src/orchestrator/adapters/_throttle.py:68-71 | Each slot is some earlier reading plus a whole number of intervals. |
| `Throttle.WindowBound` | src/orchestrator/adapters/_throttle.py:64-74 | Any half-open window holds at most the length over the interval, rounded up, of spaced starts. |
| `Retry.RetryableIff` | src/orchestrator/adapters/_retry.py:43-71 | Retried are exactly failures that are, or are caused by, pre-send errors, and 429 refusals. |
| `Retry.WaitsDouble` | src/orchestrator/adapters/_retry.py:115-119 | The first wait is the base, or a second more than a longer hint, cut to the maximum; each later wait is the one before with the base doubled. |
| `Retry.StopIsUnique` | src/orchestrator/adapters/_retry.py:108-125 | At most one attempt fits the description of where the loop stops, so it determines the outcome. |
| `Retry.WithTransportRetry` | src/orchestrator/adapters/_retry.py:86-125 | The loop ends with the first success or non-retryable failure, or attempt max_retries + 1; each wait is the capped backoff and at least the hint plus one second unless capped; the waits total at most max_retries times max_delay. |
| `ThrottledRetry.ReachableInv` | src/orchestrator/adapters/replicate_video.py:330-341 | In every schedule of retried calls over one throttle the permit bound, the throttle's slot schedule, one slot per attempt and the history of every call hold. |
| `ThrottledRetry.SendsAreEarliest` | src/orchestrator/adapters/_throttle.py:64-74 | In every schedule the sends of all calls, retries included, start at the throttle's slots for the clock readings, and no schedule respecting readings and spacing starts any of them earlier. |
| `ThrottledRetry.RateAndConcurrencyBound` | src/orchestrator/adapters/replicate_video.py:582-585 | In every schedule permits stay within the limit, and a window holds at most its length over the interval, rounded up, of sends, retries included. |
| `ThrottledRetry.CallsFollowTheLoop` | src/orchestrator/adapters/_retry.py:108-125 | In every schedule a call ends exactly at the attempt where the retry loop stops, with that attempt's outcome, whatever other calls do. |
| `ThrottledRetry.SlotsOfCall` | src/orchestrator/adapters/_retry.py:108-125 | A call reserves one slot per attempt, at most max_retries + 1, and only after attempts that may be retried. |
| `ThrottledRetry.ResentIffMasked` | src/orchestrator/adapters/_retry.py:39-71 | In every schedule an attempt followed by another slot may have been sent exactly when its failure is neither pre-send nor a refusal but has a pre-send cause. |
| `ThrottledRetry.EndedCallResentIff` | src/orchestrator/adapters/_retry.py:39-71 | An ended call repeated a request that may have been sent exactly when such a failure came before its last permitted attempt. |
| `ThrottledRetry.NothingResentWithoutMasking` | src/orchestrator/adapters/_retry.py:39-71 | Nothing that may have been sent is repeated in any schedule that delivers no such failure. |
| `ThrottledRetry.MaskedFailureIsResent` | src/orchestrator/adapters/_retry.py:63-64 | With a retry and a permit, every such failure is resent by some schedule. |
| `ThrottledRetry.ServerErrorIsResent` | src/orchestrator/adapters/_retry.py:63-64 | A concrete schedule resends a request answered with a 500 response whose cause is a connection error. |
| `ThrottledRetry.EndedIsFinal` | src/orchestrator/adapters/_retry.py:108-125 | Between any two moments of any schedule a call that has ended does not change and reserves no slot. |
| `Membership.Database.ClaimOrganizationInvitation` | migrations/versions/20260831_0013_organization_invitations.py:56-123 | The stored procedure, row by row, equals the claim function: context checked first, then role granted and invitation consumed together. |
| `Membership.Database.AuthorizeTenant` | src/orchestrator/db/database.py:185-243 | A known membership first, then a claim with a verified email, otherwise refusal. |
| `Membership.GrantedRoleIsHeld` | src/orchestrator/db/database.py:185-243 | A granted role is then held; refusal changes nothing; an invitation is consumed only when it granted the role. |
| `Membership.InvitationGrantsOnce` | migrations/versions/20260831_0013_organization_invitations.py:87-121 | After a successful claim, and any run that does not insert the invitation again, no claim by anyone for any spelling of that address grants anything. |
| `Membership.NormalizeMeans` | migrations/versions/20260831_0013_organization_invitations.py:87-87 | The address looked up is the email without the spaces around it, ASCII letters lowered, and nothing else. |
| `Membership.ClaimGrantsIff` | migrations/versions/20260831_0013_organization_invitations.py:74-123 | A claim raises exactly outside the user's own session; it grants exactly the role of the pending invitation; and the member, user and invitation rows it leaves. |
| `Membership.SignInGrantsIff` | src/orchestrator/db/database.py:185-243 | Signing in grants a role exactly to members with it, and to others with a verified email that is not blank and is invited to it. |
| `Membership.SecondSignIn` | src/orchestrator/db/database.py:185-243 | After a granted sign-in the next one needs no email, exactly when the slug is the organization's and an existing user row had the subject. |
| `Membership.MemberStatements` | migrations/versions/20260829_0012_user_management_rbac.py:132-158 | For inserting, changing and removing a member: exactly who may, and the directory afterwards. |
| `Membership.InvitationStatements` | migrations/versions/20260831_0013_organization_invitations.py:153-168 | For inserting and removing an invitation: exactly who may, and the directory afterwards. |
| `Membership.TenantIsolation` | migrations/versions/20260829_0012_user_management_rbac.py:132-158 | A session changes members and invitations of no organization but its own. |
| `Membership.UnprivilegedStatement` | migrations/versions/20260831_0013_organization_invitations.py:153-168 | Without an acting owner a statement that consumes no invitation leaves every owner and admin row and invitation as it is, adds none, and leaves a member behind. |
| `Membership.ConsumingClaim` | migrations/versions/20260831_0013_organization_invitations.py:103-121 | A claim exchanges one invitation for one membership with the same role and touches no other row. |
| `Membership.PrivilegesNeverGrow` | migrations/versions/20260829_0012_user_management_rbac.py:132-158 | In an organization with a member, along any run without an acting owner, owners and admins present and invited never grow in number and the organization never becomes memberless, so bootstrapping stays off. |
| `Membership.PrivilegesAreExplained` | migrations/versions/20260829_0012_user_management_rbac.py:132-158 | Along such runs every owner and admin held the role at the start or consumed an invitation to it pending at the start, no privileged invitation is new, and only an invitation the holder consumed can change a privileged role. |
| `Activity.AddDraft` | src/orchestrator/progress.py:318-380 | The deduplicating part of the loop's body equals the timeline step for every way of rendering the event. |
| `Activity.BuildActivity` | src/orchestrator/progress.py:251-382 | The loop computes the tail of the timeline function for every log, topology and limit. |
| `Activity.HiddenIsNotRendered` | src/orchestrator/progress.py:265-362 | Exactly the unknown types, superseded technical events, unit progress without numbers and completions before the end of a stage are skipped. |
| `Activity.TimelineTellsOfVisibleEvents` | src/orchestrator/progress.py:265-380 | In log order, the timeline tells of exactly the events that are not skipped and whose transition and id are new, with kind, status, label, stage, item, detail, time, attempt and id as their type and fields prescribe. |
| `Activity.CompletionIsShownAtTheEnd` | src/orchestrator/progress.py:301-303 | A completion is shown exactly at the end of its stage, when its transition and id are new. |
| `Activity.TechnicalEventsGiveWay` | src/orchestrator/progress.py:267-270 | Once the log holds a progress event no node or item update event is shown. |
| `PipelineEvents.DecimalDenotes` | src/orchestrator/progress.py:297-300 | The text of a number denotes that number. |
| `Activity.ResultShape` | src/orchestrator/progress.py:364-382 | Ids are pairwise distinct, the result is the newest part of the timeline, and it is cut to the limit exactly when the limit is positive. |
| `Activity.ReplaysAreInvisible` | src/orchestrator/progress.py:251-382 | When every event carries an id, inserting events anywhere after they occurred changes nothing, for every limit. |
| `Progress.ApplyChange` | src/orchestrator/progress.py:464-501 | The body of the loop on stages, active operations and completed units equals the step function. |
| `Progress.RunLoop` | src/orchestrator/progress.py:441-509 | The event loop equals the fold of the changes the log contains. |
| `Progress.ReadAsEventsSay` | src/orchestrator/progress.py:446-495 | Every event is read as its type, status, stage, node and numbers say: begin, wait, failure, unit report or completion of which stage. |
| `Progress.WorkAsEventsSay` | src/orchestrator/progress.py:449-493 | Every event is read as beginning or ending the operation it names, or that of its node and item. |
| `Progress.ActiveIffLastBegins` | src/orchestrator/progress.py:475-493 | For every log an operation is active exactly when the last event that begins or ends it begins it, with that event's stage and item. |
| `Progress.CompletedUnitsAreDistinctItems` | src/orchestrator/progress.py:492-501 | In a stage whose completions all name an item and that has no unit reports, completed units are the number of distinct items in its completion events at the terminal node. |
| `Progress.RowIsWhatEventsSay` | src/orchestrator/progress.py:441-501 | For every log the loop leaves a stage with the last status and total its events report, the count its last counting event decides (reported units, a whole batch, or the distinct units so far), and one failed unit for each failure event. |
| `Progress.ActiveUnitsAreOpen` | src/orchestrator/progress.py:511-517 | The active units of a stage are those of the operations that events left open in it. |
| `Progress.SummaryIsWhatEventsSay` | src/orchestrator/progress.py:511-525 | For every log: failed when the last status event is a failure, else running when an operation is open, else completed when the counted units suffice, else the last reported status. |
| `Progress.FinishedStageIsDone` | src/orchestrator/progress.py:518-525 | A stage whose completions all name an item, whose last status event is no failure and in which nothing is open is completed exactly when at least one item, and as many distinct items as it expects, completed. |
| `ScriptText.BeatOf` | src/orchestrator/creative_contracts.py:216-229 | The loop's body: the beat of one line, if it has one. |
| `ScriptText.ParseBeats` | src/orchestrator/creative_contracts.py:214-229 | The loop over lines collects the beats of the lines that have one, in order. |
| `ScriptText.LineMeans` | src/orchestrator/creative_contracts.py:216-229 | A line says what follows its first colon under the heading before it, or all of itself without one; hook and cta by name in any case, else body; blank text says nothing. |
| `ScriptText.SplitAtBreak` | src/orchestrator/creative_contracts.py:215-215 | Text is cut at every line break; a carriage return with its line feed is one. |
| `ScriptText.BeatsMean` | src/orchestrator/creative_contracts.py:214-231 | The beats are what the lines say, or the whole text as one body beat of a second. |
| `ScriptText.WordsAreCounted` | src/orchestrator/creative_contracts.py:227-227 | Words are counted where they start. |
| `ScriptText.CallToActionMeans` | src/orchestrator/creative_contracts.py:233-236 | The call to action is what the last such beat says, or else the last beat. |
| `ScriptText.DurationMeans` | src/orchestrator/creative_contracts.py:242-242 | The duration is the sum of the beats' seconds, cut to 180. |
| `ScriptText.AcceptedIff` | src/orchestrator/creative_contracts.py:203-249 | Text is refused as blank exactly when it is blank, and otherwise accepted exactly within the limits of ids, beats, texts and call to action. |
| `ScriptText.LineIs` | src/orchestrator/creative_contracts.py:78-83 | A printed line is the section in capitals, a colon, a space and the text. |
| `ScriptText.JoinNext` | src/orchestrator/creative_contracts.py:84-84 | Printed lines are separated by single line feeds. |
| `ScriptText.ScriptResultFromText` | src/orchestrator/creative_contracts.py:203-249 | The whole parse, blank text and contract violations included, equals the parse function. |
| `ScriptText.SecondsAreNearest` | src/orchestrator/creative_contracts.py:227-227 | A beat's seconds are the whole number nearest to its words over 2.5, kept between 1 and 120. |
| `ScriptText.SplitUndoesJoin` | src/orchestrator/creative_contracts.py:84-84 | Splitting joined lines gives them back, for any non-empty lines without line breaks. |
| `ScriptText.PrintedLineParses` | src/orchestrator/creative_contracts.py:216-229 | A printed line parses to its section and text. |
| `ScriptText.ParseUndoesPrint` | src/orchestrator/creative_contracts.py:77-84 | Printing a valid draft without line breaks and parsing it succeeds exactly when it fits the limits and the ids are acceptable, and returns the same sections and texts plus one final call to action when there was none. |
| `ScriptText.SecondRoundIsIdentity` | src/orchestrator/creative_contracts.py:203-249 | A second round of printing and parsing changes neither text nor draft. |
| `ScriptText.ParsedDraftIsValid` | src/orchestrator/creative_contracts.py:59-75 | Whatever the text, a parsed draft meets every limit, in particular 1 to 120 seconds for each beat. |
| `ScriptText.ReparseIsStable` | src/orchestrator/creative_contracts.py:203-249 | Any parsed text with a call-to-action beat reparses to the same draft. |
| `ScriptText.ReparseAddsCta` | src/orchestrator/creative_contracts.py:82-83 | Parsed text without one fails to reparse exactly when it had 20 beats; otherwise it gains one such beat and keeps the others, except that of text in which no line says anything only the first line returns, as body and as call to action. |
| `IndexedStore.SortDescending` | src/orchestrator/creator_store.py:113-117 | Sorts the keys by index, highest first, each once. |
| `IndexedStore.ListingIsUnique` | src/orchestrator/creator_store.py:113-117 | With distinct indices there is only one sorted order. |
| `IndexedStore.NewestIsByLastWrite` | src/orchestrator/creator_store.py:105-119 | The listing of a log holds exactly its keys by decreasing position of their last write. |
| `CreatorStore.LoadIsNewestFirst` | src/orchestrator/creator_store.py:113-117 | Sorting the store by index lists the last write of every key, newest first, and no two entries share an index. |
| `CreatorStore.NewestShown` | src/orchestrator/creator_store.py:91-100 | The store holds for every key the record of its last write. |
| `CreatorStore.StoredIsLastWrite` | src/orchestrator/creator_store.py:86-100 | The store holds, for exactly the keys written, the record and position of the last write. |
| `CreatorStore.WritesHold` | src/orchestrator/creator_store.py:84-100 | What a batch writes for each creator: key, run, id, normalized media, prompts, offer, and approved exactly when its id is listed. |
| `CreatorStore.PresentedAt` | src/orchestrator/creator_store.py:111-119 | Loading normalizes an entry's media once more and changes nothing else. |
| `CreatorStore.JsonCreatorStore.MaxIndex` | src/orchestrator/creator_store.py:79-83 | The highest index is the number of writes ever made, less one. |
| `CreatorStore.JsonCreatorStore.Put` | src/orchestrator/creator_store.py:89-100 | Storing an entry under the next index appends one write to the log. |
| `CreatorStore.JsonCreatorStore.RecordCreators` | src/orchestrator/creator_store.py:59-102 | Recording a batch appends one write per creator, in order, to the log the store stands for. |
| `CreatorStore.JsonCreatorStore.LoadCreators` | src/orchestrator/creator_store.py:105-119 | Returns the log with only the last write per key kept, newest first. |
| `CreatorStore.JsonCreatorStore.FindCreator` | src/orchestrator/creator_store.py:183-194 | Returns the newest matching entry, or nothing exactly when none matches. |
| `FeedbackStore.SavesAreOrdered` | src/orchestrator/feedback_store.py:71-83 | Over any saves without own index keys, runs saved again included, indices are pairwise distinct and order the runs by last save. |
| `FeedbackStore.LoadsLastSaved` | src/orchestrator/feedback_store.py:87-96 | Each run loads its last saved summary, unchanged exactly when that summary carried no index key. |
| `FeedbackStore.LatestIffWins` | src/orchestrator/feedback_store.py:71-118 | From any store, the latest run is the one just saved exactly when its summary has no index key or a number that beats all other runs. |
| `FeedbackStore.OwnIndexDefeatsOrder` | src/orchestrator/feedback_store.py:83-83 | A summary saved last with a negative index of its own is not the latest. |
| `FeedbackStore.LatestRun` | src/orchestrator/feedback_store.py:117-117 | Picks the run with the highest index, the greater run id among equals. |
| `FeedbackStore.PrecedesMeans` | src/orchestrator/feedback_store.py:117-117 | Run ids are ordered as text: a proper prefix first, else by the first character that differs. |
| `FeedbackStore.JsonFeedbackStore.HighestOther` | src/orchestrator/feedback_store.py:73-79 | The highest integer index among the other runs, or -1. |
| `FeedbackStore.JsonFeedbackStore.SaveFeedback` | src/orchestrator/feedback_store.py:57-84 | Saving appends one save to the log the store stands for. |
| `FeedbackStore.JsonFeedbackStore.LoadRun` | src/orchestrator/feedback_store.py:87-96 | Returns the run's last saved summary without the index key. |
| `FeedbackStore.JsonFeedbackStore.LoadLatest` | src/orchestrator/feedback_store.py:99-118 | Returns the summary saved last exactly when that save wins; otherwise that of another run, or nothing. |

## Left out

Assumptions of the model:

- Each ledger method and each stored procedure is one atomic step, as the row locks and guarded updates provide. Two transactions that insert the same effect key at once are not modelled: the loser would see a primary-key violation instead of the stored row. A violation of the operation-id index is the same error as the check before it.
- The ledger is that of one organization; the organization column and its row-level policy are not part of it. Keys, quota units and limits are unbounded where the columns are 64-bit integers; JSON payloads are opaque strings compared by equality.
- `provider_status` has the five valid statuses as its type; that other spellings are refused is stated by the parse functions and their lemmas.
- `str.lower` is modelled on ASCII letters; `str.strip` and `str.splitlines` on the full set of code points; SQL `trim` removes spaces.
- In the membership model foreign keys and the uniqueness of user subjects are not enforced, so more statements succeed there than in the database; deletion of user rows and administrative grants are no statements of it. `users` columns other than the subject are absent.
- UTF-8 and HMAC-SHA256 are abstract functions; that decoding undoes encoding is the one law required of UTF-8.
- Sleep is exact; oversleeping only delays sends further. The semaphore's rebuild for a new event loop is not modelled. The clock, the provider's answers and the reset hint in a message are inputs.
- Events carry text fields with missing values as "", and the topology and the size of the batch are parameters. `attempt` is an integer; in the progress loop item rows and timestamps are absent.
- The contract classes trim texts of the same white space as `str.strip`, except that they keep the separators U+001C to U+001F; the model trims those too. Draft fields that neither printing nor parsing reads are absent; the draft id derived from run and concept is an input.
- Store entries were written by the store itself, so each creator entry has an index. Media normalization is an abstract function. Reading and writing the file is not modelled.

Not modelled:

- `wait_for_provider_operation` and `quota_usage`: a poll against the wall clock and a plain read.
- Webhook signature and timestamp verification: HMAC comparison over raw bytes.
- `with_idempotent_retry`: the same loop with a wider retry predicate.
- The translators from library events to public events, the execution status, and the phase overrides at the end of `build_progress`.
- Job leases, run gates, outbox, worker and queue runners, graph nodes, storage backends and the PostgreSQL variants of the two stores.
- Cost summaries, adapters' request building, the command line, the web API and the front end.
