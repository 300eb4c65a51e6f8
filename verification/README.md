# Faultline: a verified model

This project models the parts of Faultline whose behaviour is hard to settle by examples: the
incident notification protocol, the credential and session state machines, the audit hash
chain, the durable and in-memory queues, telemetry paging and search, baseline arithmetic and
caching, CSV printing and import, on-call resolution, and the temporary-password generator.

Every module follows one pattern. Code that computes a value is a function. Code that changes
things step by step is a method or a class whose `ensures` ties the new state to a
specification function of the old one. The lemmas then say what those functions mean for all
inputs, all runs or all interleavings.

| file | what it models |
|---|---|
| `Basics.dfy`, `Sorting.dfy` | options and results, filter and map, white space and trimming, a stable sort |
| `NotificationWorld.dfy`, `NotificationServices.dfy`, `NotificationRuns.dfy`, `NotificationRecords.dfy`, `NotificationTrail.dfy` | the notification and acknowledgement handlers as atomic steps: their specification, the services in imperative form, the laws of whole runs, what is recorded of every contact, and what every handler answers and leaves |
| `Interleavings.dfy` | the same protocol with every store operation as a step of its own, and Slack replies and tickets |
| `AttemptStatus.dfy` | the status lattice of one notification attempt |
| `BitStreams.dfy`, `Accumulator.dfy`, `Base32.dfy`, `Totp.dfy` | the secret codec with its wrapping 32-bit accumulator, and one-time codes |
| `UserRepository.dfy` | accounts, two-factor enrolment, challenges, reset tokens, session versions |
| `AuditChain.dfy`, `Canonical.dfy` | the hash chain over audit records, and the canonical JSON form hashed |
| `Envelopes.dfy`, `JetStream.dfy`, `InMemoryQueue.dfy` | message envelopes, durable delivery with retry and dead letters, the bounded in-memory queue |
| `WhereClause.dfy`, `Paging.dfy`, `LikeSearch.dfy` | telemetry queries, keyset cursors over deduplicated rows, escaped LIKE search |
| `Statistics.dfy`, `Summaries.dfy`, `MergeRanges.dfy`, `BaselineCache.dfy` | trend fitting, percentiles and summaries, interval merging, the read-through cache |
| `Csv.dfy`, `CsvImport.dfy` | the CSV printer, the quoted-field parser, and the import of a whole file |
| `OnCall.dfy` | guarded inserts of shifts and overrides, and who is on call until when |
| `TemporaryPassword.dfy` | the generator and its shuffle against the password policy |

Two grains are used for the notification protocol, because handlers read a state, wait, and
then save a copy of it. With handlers atomic, the order ACTIVE, ACKNOWLEDGED, RESOLVED and the
silence after it hold over every run. With single store operations atomic, the at-most-once
laws still hold, and the state order breaks exactly where a stale copy is saved over a later
one; a reachable run shows it.

## Results that differ from what one might expect

- An acknowledgement that is stored before any notification state exists is not heeded: the
  next notifying message still contacts everyone (`EarlyAcknowledgementIsIgnored`). Nor is a
  Slack or API acknowledgement whose handler fails after storing it and before stopping the
  incident. With the other handlers atomic these are the only two ways (`HeededExactly`). Then
  only the incident's end or another API call stops it (`UnheededExactly`): a repeated API call
  heals the incident (`RepeatedApiCallHeals`), a redelivered Slack signal does not
  (`StalledAcknowledgementIsIgnored`).
- When the transaction of a voice acknowledgement fails, its claim stays: the call can never
  acknowledge again, and is told that it was acknowledged already
  (`RolledBackCallNeverAcknowledges`).
- With single store operations atomic, an incident moves backwards exactly when a thread saves
  a stage read before another thread moved on (`StepBreaksOrderExactly`,
  `BrokenOrderWasOvertaken`, `OrderKeptWithoutOverlap`).
- The canonical form depends on the order in which keys were inserted exactly when an object
  holds two keys that `localeCompare` does not tell apart, such as canonically equivalent
  spellings (`OrderIsHiddenExactly`).
- User names are compared only when an account is created, and then trimmed, so two accounts can
  share one (`StepKeepsNamesExactly`). A unique index in the database prevents it there
  (packages/database/migrations/0011_subscriptions_and_provisioning.sql:12).
- At most four provider reports change the status of an attempt, although there are six ranks:
  rank 4 is terminal already.
- `monotonicFraction` is documented as 1 for "strictly monotonic" samples
  (packages/baselines/src/statistics.ts:88). The code counts level steps too, so it is 1 exactly
  when no step decreases; the model follows the code.
- When a chain is broken, the audit report counts every record that was not verified, signed or
  not, as unsigned (packages/auth/src/repository.ts:521-527). The model follows the code.
- A page break between copies of one event that differ in their time makes a reader see the
  event twice (`SeenTwiceExactly`, `RepeatIsReachable`). Some page size shows one twice exactly
  when the table holds two such copies and a matching row of another event below the newer
  (`RepeatsExactly`).
- Two workloads can share a cache key, and so each other's baselines: a workload shares its key
  exactly when one of its names holds a bar (`KeyIsSharedExactly`).
- `invalidate` does not stop a load in flight from filling the cache with what it read before.
- `validUntil` does not take an override into account that begins later
  (`HoldsExactly`, `UpcomingOverrideIsMissed`).
- The printer quotes line feeds, but the import cuts the file into lines first, drops blank
  lines, and picks its delimiter by the first line; `FileRoundTrip` says which files are read
  back.
- A temporary password longer than 128 characters is generated but would fail the policy.
- A message can be lost after its last delivery when the publish of its dead letter or
  the acknowledgement after it throws, or the process dies (`LossIsReachable`), and only then
  (`LostExactly`).

## Model

| member | source | states |
|---|---|---|
| Base32.EncodeSymbols | packages/auth/src/mfa.ts:32-46 | the encoding loop, with an accumulator that wraps at 32 bits and is never masked and at most 12 pending bits, computes the five-bit groups of the zero-padded bit stream |
| Base32.DecodeSymbols | packages/auth/src/mfa.ts:48-64 | the decoding loop computes the whole bytes of the bit stream of the symbols |
| Base32.Encode | packages/auth/src/mfa.ts:32-46 | the encoded text is the alphabet letters of those groups |
| Base32.Decode | packages/auth/src/mfa.ts:48-64 | the decoder cleans the text, folding every character whose upper case is in the alphabet, refuses an empty or foreign one, and otherwise decodes it |
| Accumulator.PushBits | packages/auth/src/mfa.ts:37 | shifting bits into the wrapping word appends them to the pending bits as long as those fit 32 bits |
| Accumulator.PopBits | packages/auth/src/mfa.ts:40-41 | shifting right and masking reads the oldest pending bits and leaves the rest, whatever lies above them |
| BitStreams.DecodedOfEncoded | packages/auth/src/mfa.ts:32-64 | decoding undoes encoding on every byte string (section 6 of RFC 4648, unpadded) |
| BitStreams.EncodedOfDecoded | packages/auth/src/mfa.ts:32-64 | encoding undoes decoding exactly on symbol strings with fewer than five left-over bits, all zero |
| Base32.RoundTrip | packages/auth/src/mfa.ts:32-64 | a text decodes to the bytes whose encoding it normalises to, exactly when they are not empty |
| Base32.TypedBack | packages/auth/src/mfa.ts:32-64 | a secret typed back in either case, with ligatures and with separators anywhere, decodes to its bytes unless it is empty |
| Base32.ForeignIsRefused | packages/auth/src/mfa.ts:48-51 | a character that writes no letter and separates none refuses the whole text |
| Base32.RoundTripVerbatim | packages/auth/src/mfa.ts:32-64 | the same for the text as it was printed |
| Totp.CodeShape | packages/auth/src/mfa.ts:80-91 | a code is six decimal digits that write the dynamically truncated digest modulo one million (section 5.3 of RFC 4226) |
| Totp.CodesAgree | packages/auth/src/mfa.ts:80-91 | two digests give one code exactly when their truncations agree modulo one million |
| Totp.VerifyTotp | packages/auth/src/mfa.ts:98-115 | the loop over the window finds what the search specification says |
| Totp.TruncatedBits | packages/auth/src/mfa.ts:85-89 | the truncation is the four bytes at the offset that the last nibble of the digest names, written out as bits without the first (section 5.3 of RFC 4226) |
| Totp.CounterMeaning | packages/auth/src/mfa.ts:93-96 | the counter is the number of whole 30-second steps up to the instant |
| Totp.HotpMeaning | packages/auth/src/mfa.ts:80-91 | a code is defined for counters from zero and decodable secrets, and writes the truncated hash of that counter under the bytes of the secret modulo one million |
| Totp.VerifiedMeaning | packages/auth/src/mfa.ts:98-115 | the accepted counter is the earliest of the window whose code matches, and none is accepted exactly when none matches or the code is malformed |
| Totp.VerifiedThrows | packages/auth/src/mfa.ts:80-115 | exactly when verification throws: an undecodable secret, or a counter below zero met before a match |
| Totp.FreshCodeAccepted | packages/auth/src/mfa.ts:80-115 | a code made within the window of its check is accepted, at its own counter or an earlier one with the same code |
| UserRepository.InMemoryUserRepository.Create | packages/auth/src/repository.ts:217-246 | creating an account is exactly its step: duplicate e-mail, duplicate user name, or a new account without two-factor sign-in |
| UserRepository.CreateMeaning | packages/auth/src/repository.ts:217-246 | which creations are refused, and with which error; all others add one account with the given fields and the defaults, without a second factor |
| UserRepository.InMemoryUserRepository.Update | packages/auth/src/repository.ts:247-281 | an update is exactly its step; two-factor sign-in can only be switched on over a stored secret |
| UserRepository.AnswersMeaning | packages/auth/src/repository.ts:217-314 | an account operation answers with the account as stored, or with nothing, changing nothing, where there is none |
| UserRepository.InMemoryUserRepository.ConfigureMfa | packages/auth/src/repository.ts:292-310 | enrolment stores secret, recovery codes and counter |
| UserRepository.InMemoryUserRepository.DisableMfa | packages/auth/src/repository.ts:312-314 | disabling clears the whole enrolment |
| UserRepository.InMemoryUserRepository.ConsumeMfaTotpCounter | packages/auth/src/repository.ts:316-322 | a counter is accepted and stored only above the stored one |
| UserRepository.InMemoryUserRepository.ConsumeMfaRecoveryCode | packages/auth/src/repository.ts:324-332 | an accepted recovery code is removed |
| UserRepository.InMemoryUserRepository.CreateMfaChallenge | packages/auth/src/repository.ts:334-338 | a challenge is stored unused |
| UserRepository.InMemoryUserRepository.ConsumeMfaChallenge | packages/auth/src/repository.ts:340-346 | a challenge is accepted for its account, unused and unexpired, and then used |
| UserRepository.InMemoryUserRepository.CreatePasswordResetToken | packages/auth/src/repository.ts:348-361 | a new token retires the unused tokens of the account |
| UserRepository.InMemoryUserRepository.ResetPasswordWithToken | packages/auth/src/repository.ts:363-390 | a reset is exactly its step, over loops that retire all tokens and challenges of the account |
| UserRepository.MarkUsed | packages/auth/src/repository.ts:380-387 | the retiring loop marks the tickets of the account and no others |
| UserRepository.UpdateMeaning | packages/auth/src/repository.ts:247-281 | an update sets what it names and keeps the rest, identity and session version always; two-factor sign-in is switched on only over a stored secret, and switching it off clears the enrolment |
| UserRepository.RunKeepsSound | packages/auth/src/repository.ts:217-390 | over every run: two-factor sign-in is on exactly when a secret is stored, e-mail addresses are distinct, and an account has at most one unused reset token |
| UserRepository.RunsFromEmpty | packages/auth/src/repository.ts:168-390 | so from the empty repository; and a session version is one plus the number of resets |
| UserRepository.ResetMeaning | packages/auth/src/repository.ts:363-390 | when a reset succeeds, and everything it changes and leaves unchanged; a failed one changes nothing |
| UserRepository.ResetAnswers | packages/auth/src/repository.ts:363-390 | a refused reset answers with an error exactly when only the reused password is at fault, and else with nothing |
| UserRepository.TokenAcceptedExactly | packages/auth/src/repository.ts:348-390 | after any run since its creation a token resets the password exactly before it expires, if no later token was made and no reset of the account happened, the account is active and the password is new |
| UserRepository.TokenResetsOnce | packages/auth/src/repository.ts:348-390 | each token resets a password at most once in any run with fresh token hashes |
| UserRepository.ChallengeAcceptedOnce | packages/auth/src/repository.ts:334-346 | each challenge is accepted at most once in any run |
| UserRepository.ChallengeMeaning | packages/auth/src/repository.ts:340-346 | a challenge is accepted exactly for its account, unused and before it expires; it alone is marked, and a refusal changes nothing |
| UserRepository.ChallengeAcceptedExactly | packages/auth/src/repository.ts:334-390 | after any run since its creation a challenge is accepted exactly for its account, before it expires, and if it was neither accepted nor ended by a reset |
| UserRepository.ResetEndsEverything | packages/auth/src/repository.ts:380-387 | after a reset no earlier token or challenge of the account is accepted on any continuation |
| UserRepository.SessionVersionCountsResets | packages/auth/src/repository.ts:374-380 | over any run the session version grows by the number of resets and by nothing else |
| UserRepository.AcceptedCountersIncrease | packages/auth/src/repository.ts:316-322 | between enrolments accepted counters strictly increase, from above the stored one |
| UserRepository.CounterMeaning | packages/auth/src/repository.ts:316-322 | a counter is accepted exactly above the stored one, which alone it replaces; a refusal changes nothing |
| UserRepository.RecoveryMeaning | packages/auth/src/repository.ts:324-332 | a recovery code is accepted exactly when its hash is stored, and only that hash is removed |
| UserRepository.EnrolmentMeaning | packages/auth/src/repository.ts:292-332 | after an enrolment exactly the counters above the enrolled one and the enrolled recovery codes are accepted |
| UserRepository.DisabledMeaning | packages/auth/src/repository.ts:312-332 | once disabled, no recovery code is accepted and no counter is remembered |
| UserRepository.RecoveryCodeOnce | packages/auth/src/repository.ts:324-332 | a recovery code is accepted at most once between enrolments |
| UserRepository.StepKeepsNamesExactly | packages/auth/src/repository.ts:217-281 | a step makes two accounts share a user name exactly when it is an update to a name held by another, or creates an account under an empty or untrimmed name that another holds |
| UserRepository.NamesStayDistinctExactly | packages/auth/src/repository.ts:192-281 | over any run no two accounts share a user name exactly when no step clashes |
| AuditChain.HexRoundTrip | packages/auth/src/audit-integrity.ts:48-55 | decoding undoes hexadecimal encoding |
| AuditChain.HexDecodeMeaning | packages/auth/src/audit-integrity.ts:51-55 | decoding reads pairs of digits of either case as far as there are any, and encoding gives them back in lower case |
| AuditChain.InMemoryAuditLog.Record | packages/auth/src/repository.ts:444-482 | recording appends the record whose hash covers contents, number, key and the hash before it |
| AuditChain.InMemoryAuditLog.VerifyIntegrity | packages/auth/src/repository.ts:502-536 | the loop reports the first broken link among the signed records, the number of signed records before it and the hash reached |
| AuditChain.ReportIsDetermined | packages/auth/src/repository.ts:502-536 | at most one report fits a log |
| AuditChain.ReportExists | packages/auth/src/repository.ts:502-536 | and some report fits every log |
| AuditChain.ValidMeansVerifies | packages/auth/src/repository.ts:502-536 | the verdict is valid exactly when every link holds |
| AuditChain.RecordedLogsVerify | packages/auth/src/repository.ts:444-536 | every log built by recording verifies, for every hash of 32 bytes |
| AuditChain.RecordingKeepsVerified | packages/auth/src/repository.ts:461-482 | recording onto a verified log keeps it verified exactly when its last record is signed or none is, for every hash of 32 bytes |
| AuditChain.HashesDistinct | packages/auth/src/repository.ts:502-536 | no two signed records of a verified log share a hash, or two different payloads of that log collide |
| AuditChain.SameHeadSameLog | packages/auth/src/repository.ts:502-536 | two verified logs with one head hash hold the same signed records, or two different payloads of these logs collide |
| AuditChain.AlteredRecordIsReported | packages/auth/src/repository.ts:506-528 | altering what a signed record says under its old hash is reported at exactly that record, after the signed records before it, unless the two payloads of that record collide |
| AuditChain.ForgedRecordIsReportedNext | packages/auth/src/repository.ts:506-528 | a replacement carrying its own valid hash is reported at the signed record that follows, for every hash of 32 bytes |
| AuditChain.RemovedRecordIsReported | packages/auth/src/repository.ts:506-528 | removing a signed record is reported at the signed record that follows, or two different payloads of the log collide |
| AuditChain.TruncationVerifies | packages/auth/src/repository.ts:502-536 | a truncated log verifies; its head hash differs if a signed record was cut, or two different payloads of the log collide |
| AuditChain.TamperingExists | packages/auth/src/repository.ts:444-536 | a hash and a log of three records on which everything assumed of altered, forged and removed records holds at once, without a collision |
| AuditChain.UnsignedRecordsAreNotProtected | packages/auth/src/repository.ts:505-507 | logs with the same signed records get the same report but for the unsigned count |
| Canonical.CanonicalDecides | packages/auth/src/audit-integrity.ts:19-29 | for any comparator, two values of which one holds no keys that tie have one canonical form exactly when they differ at most in the order of their keys, at any depth |
| Canonical.OneFormIsSame | packages/auth/src/audit-integrity.ts:19-29 | whatever the comparator ties, values of one canonical form differ at most in the order of their keys |
| Canonical.OrderIsHiddenExactly | packages/auth/src/audit-integrity.ts:19-29 | the canonical form of a value hides the order in which its keys were inserted exactly when no object in it, at any depth, holds two keys that the comparator ties and that are no array indices |
| Canonical.PlacedIsOrdered | packages/auth/src/audit-integrity.ts:22-26 | sorting the entries and rebuilding the object lists array indices by their number, and then the other keys in the comparator's order |
| Canonical.IndexMeaning | packages/auth/src/audit-integrity.ts:22-26 | the keys listed first are exactly the decimal numerals of the numbers below 2^32 - 1 |
| Canonical.TiesDependOnOrder | packages/auth/src/audit-integrity.ts:22-26 | an object of two tied keys shows the order in which they were inserted |
| AttemptStatus.UpdateMeaning | packages/notifications/src/index.ts:135-142 | no report is taken once a contact is over; before, every report that it is over is |
| AttemptStatus.OpenOrder | packages/notifications/src/index.ts:135-142 | of two open statuses the later is kept, in the order pending, sent, in progress, answered |
| AttemptStatus.FoldedMeaning | packages/notifications/src/index.ts:135-142 | from an open status a stream of reports leaves the first terminal report, or else the highest-ranked status |
| AttemptStatus.HighestUnique | packages/notifications/src/index.ts:140-142 | ranks tell open statuses apart |
| AttemptStatus.ChangesRaiseRank | packages/notifications/src/index.ts:135-142 | every change raises the rank |
| AttemptStatus.AtMostFourChanges | packages/notifications/src/index.ts:135-142 | so at most four reports change a status |
| AttemptStatus.RedeliveryIsHarmless | packages/notifications/src/index.ts:135-142 | repeating an earlier report at any later point changes nothing |
| NotificationServices.Stores.Claim | packages/notifications/src/index.ts:361-365 | a claim succeeds once |
| NotificationServices.Stores.SaveAttempt | packages/notifications/src/index.ts:118-123 | saving replaces the attempt of that id in place or appends it |
| NotificationServices.Stores.SaveAck | packages/notifications/src/index.ts:107 | the first acknowledgement of an incident is kept and returned |
| NotificationServices.NotificationService.Send | apps/notification/src/notification.service.ts:225-315 | sending claims, saves, asks the provider and records, and falls back on a refused call to an engineer, exactly as its step |
| NotificationServices.NotificationService.Dispatch | apps/notification/src/notification.service.ts:208-223 | the loop over recipients and channels is its step |
| NotificationServices.NotificationService.FallbackToAdmin | apps/notification/src/notification.service.ts:177-206 | the fallback handler is its step |
| NotificationServices.NotificationService.HandleIncident | apps/notification/src/notification.service.ts:96-138 | the incident handler is its step |
| NotificationServices.NotificationService.Resolve | apps/notification/src/notification.service.ts:340-346 | resolving is its step |
| NotificationServices.NotificationService.ProcessProviderEvent | apps/notification/src/notification.service.ts:140-175 | the webhook handler is its step |
| NotificationServices.EndUserService.SendSms | apps/notification/src/notification.service.ts:85-94 | an end-user message is its step |
| NotificationRecords.EndUserRecordsOne | apps/notification/src/notification.service.ts:85-94 | an accepted message to an end user is recorded in exactly one attempt of a new id, with its request |
| NotificationRecords.SentMessageStaysFound | apps/notification/src/notification.service.ts:85-94 | and is found under its request on every continuation |
| NotificationServices.VoiceActionService.Process | apps/notification/src/voice-action.service.ts:31-76 | the voice decision handler is its step, reply included; what an acknowledgement stores is stored in one transaction that may fail |
| NotificationServices.VoiceActionService.ProcessProviderResponse | apps/notification/src/voice-action.service.ts:25-29 | the webhook form rebuilds the request from the attempt |
| NotificationServices.AcknowledgementEndpoints.FromSlack | apps/notification/src/slack-acknowledgement.service.ts:51-122 | the Slack acknowledgement is its step, with a store failing at any point and the claim then released |
| NotificationServices.AcknowledgementEndpoints.FromApi | apps/api/src/incident-acknowledgement.controller.ts:48-94 | the API acknowledgement is its step, with a store failing at any point and what was stored before staying |
| NotificationRuns.HandleIncidentAdvances | apps/notification/src/notification.service.ts:96-138 | the handler moves no incident backwards and acts only under fresh claims |
| NotificationRuns.FallbackAdvances | apps/notification/src/notification.service.ts:177-206 | likewise the fallback, which also keeps every state |
| NotificationRuns.RunAdvances | apps/notification/src/notification.service.ts:96-346 | over every run: claims grow, states advance, acknowledgements stand, and new effects are distinct, freshly claimed, and not for a stopped incident |
| NotificationRuns.StateOnlyMovesForward | apps/notification/src/notification.service.ts:96-346 | an incident's state only moves ACTIVE, ACKNOWLEDGED, RESOLVED |
| NotificationRuns.FirstAcknowledgementStands | packages/notifications/src/index.ts:107 | the first stored acknowledgement never changes |
| NotificationRecords.AcknowledgementIsOfTheFirst | packages/notifications/src/index.ts:107 | over every run the stored acknowledgement is in the words of the first step that stored one: who, when, and by which call, event or request |
| NotificationTrail.SlackMeaning | apps/notification/src/slack-acknowledgement.service.ts:51-122 | what a Slack acknowledgement answers, stores and says in each case, and when its claim is kept |
| NotificationTrail.ApiMeaning | apps/api/src/incident-acknowledgement.controller.ts:48-94 | what an API acknowledgement answers, stores and says in each case |
| NotificationRuns.SilentOnceStopped | apps/notification/src/notification.service.ts:177-180 | once the state leaves ACTIVE no later step starts a direct call, a direct message or an admin fallback |
| NotificationRuns.EffectsHappenOnce | apps/notification/src/notification.service.ts:180-233 | in every run each claimed provider request and fallback happened exactly once, and an unclaimed one never |
| NotificationRuns.EveryoneIsNotified | apps/notification/src/notification.service.ts:96-138 | a first notification calls the provider once for every resolved recipient on every enabled channel |
| NotificationTrail.NotificationMeaning | apps/notification/src/notification.service.ts:96-138 | which incidents begin to be notified, and the state and audit trail this leaves |
| NotificationTrail.RepeatedMessageMeaning | apps/notification/src/notification.service.ts:96-138 | a later message closes an open incident when it is resolved, and otherwise changes nothing once somebody was notified |
| NotificationRecords.SendRecordsOne | apps/notification/src/notification.service.ts:233-296 | an accepted contact is recorded in exactly one attempt of a new id, with its incident, recipient, source, channel, status and request |
| NotificationRecords.HandleIncidentRecords | apps/notification/src/notification.service.ts:96-138 | the incident handler appends exactly one attempt for every contact it claims, accepted or refused, and changes no other |
| NotificationRecords.NotifiedCallsAreFound | apps/notification/src/notification.service.ts:96-138 | after a first notification every accepted contact is found under its request |
| NotificationRecords.RunKeepsCalls | apps/notification/src/notification.service.ts:96-346 | over every run attempts stay in place with all that identifies them; only a status changes |
| NotificationRecords.SentCallStaysFound | apps/notification/src/notification.service.ts:225-315 | a sent contact is found under its request on every continuation, as it was recorded but for its status |
| NotificationRuns.EndedCallEscalates | apps/notification/src/notification.service.ts:161-174 | an engineer's call that ends unanswered while the incident is ACTIVE and open begins the one fallback and calls the provider for the administrators on every channel |
| NotificationRecords.SentCallEscalates | apps/notification/src/notification.service.ts:225-315 | so does every call sent to an engineer, whenever its webhook arrives on any continuation: nothing is assumed about finding its attempt |
| NotificationTrail.EscalationMeaning | apps/notification/src/notification.service.ts:177-206 | an escalation puts the administrators behind the present recipients, without repeats, marks the fallback and says so |
| NotificationTrail.WebhookMeaning | apps/notification/src/notification.service.ts:140-175 | a webhook changes the status of the attempt found and says so; for all but an engineer's call that ended it changes nothing else |
| NotificationRuns.RefusedCallEscalates | apps/notification/src/notification.service.ts:297-314 | so does a call the provider refuses |
| NotificationRuns.DeclineEscalates | apps/notification/src/voice-action.service.ts:70-75 | so does a decline that counts |
| NotificationRuns.VoiceReplyIsTruthful | apps/notification/src/voice-action.service.ts:31-76 | exactly the reply ACKNOWLEDGED stores an acknowledgement and stops the incident |
| NotificationTrail.SentCallCanAcknowledge | apps/notification/src/voice-action.service.ts:25-66 | on every continuation of a sent call its webhook can acknowledge an undecided incident, in the name of its recipient |
| NotificationTrail.VoiceCanAcknowledge | apps/notification/src/voice-action.service.ts:31-66 | a matching acknowledgement of an undecided incident counts: acknowledgement, state, attempt and trail; its repetition changes nothing |
| NotificationTrail.VoiceCanDecline | apps/notification/src/voice-action.service.ts:69-76 | a matching decline of an undecided incident counts and is recorded; its repetition changes nothing |
| NotificationTrail.VoiceRefusals | apps/notification/src/voice-action.service.ts:31-45 | which requests are refused before the state is looked at, with which reply; they change nothing |
| NotificationTrail.VoiceSettled | apps/notification/src/voice-action.service.ts:46-52 | which requests about a begun incident leave it as it is, with which reply |
| NotificationTrail.WebhookReplyMeaning | apps/notification/src/voice-action.service.ts:25-29 | a webhook reply is ignored for no known call or for a message, and else is the request rebuilt from the attempt |
| NotificationRuns.RolledBackCallNeverAcknowledges | apps/notification/src/voice-action.service.ts:52-66 | a voice acknowledgement whose transaction fails stores nothing but its claim; on every continuation the call cannot acknowledge, and a repeated request is told that it was acknowledged already |
| NotificationRuns.HeededExactly | apps/notification/src/slack-acknowledgement.service.ts:73-121 | an acknowledgement goes unheeded in a step exactly when it is stored already and the step begins the notification, or the step is a Slack or API acknowledgement that fails between storing it and stopping the incident |
| NotificationRuns.StartedIncidentsHeedAcknowledgements | apps/notification/src/slack-acknowledgement.service.ts:73-84 | once notification has begun every acknowledgement on any path stops it, as long as no acknowledgement fails on the state |
| NotificationRuns.EarlyAcknowledgementIsIgnored | apps/notification/src/notification.service.ts:102-137 | an early acknowledgement silences nothing: everyone is called, and over any run the incident stays ACTIVE until its end or another API call |
| NotificationRuns.EarlyAcknowledgementIsReachable | apps/api/src/incident-acknowledgement.controller.ts:48-94 | two steps from the empty stores an acknowledgement precedes the state |
| NotificationRuns.StalledAcknowledgementIsIgnored | apps/notification/src/slack-acknowledgement.service.ts:63-121 | a Slack acknowledgement that fails on the state is stored while the incident stays ACTIVE, and its redelivery only answers that it was acknowledged already |
| NotificationRuns.StallIsReachable | apps/api/src/incident-acknowledgement.controller.ts:61-73 | a run from the empty stores leads to a failing API acknowledgement that stalls |
| NotificationRuns.RepeatedApiCallHeals | apps/api/src/incident-acknowledgement.controller.ts:61-73 | after a stall a repeated API call answers with the acknowledgement stored first and stops the incident |
| NotificationRuns.UnheededExactly | apps/api/src/incident-acknowledgement.controller.ts:48-94 | a step stops an incident left unheeded exactly when it ends the incident or is an API acknowledgement of it that gets past the state |
| NotificationRuns.UnheededStaysActive | apps/notification/src/voice-action.service.ts:31-76 | over any run without its end or an API call, an unheeded acknowledgement leaves the incident ACTIVE, whatever voice and Slack do |
| Interleavings.AloneSend | apps/notification/src/notification.service.ts:225-315 | uninterrupted, a contact is claimed and made once, and a refused call to an engineer falls back |
| Interleavings.AloneNotify | apps/notification/src/notification.service.ts:96-138 | uninterrupted, a notification that is due makes the incident ACTIVE and sends to everyone |
| Interleavings.AloneFallback | apps/notification/src/notification.service.ts:177-206 | uninterrupted, a fallback begins once while the incident is ACTIVE and sends to the administrators |
| Interleavings.AloneAck | apps/notification/src/slack-acknowledgement.service.ts:63-84 | uninterrupted, the first acknowledgement is stored and stops an ACTIVE incident |
| Interleavings.AloneVoice | apps/notification/src/voice-action.service.ts:40-66 | uninterrupted, a voice acknowledgement counts once for its call, and alike in one transaction and in the plain form |
| Interleavings.AloneResolve | apps/notification/src/notification.service.ts:340-346 | uninterrupted, an incident is closed |
| Interleavings.AloneReply | apps/notification/src/slack-incident-ticket.publisher.ts:184-217 | uninterrupted, a reply is posted under its claim, or fails and leaves nothing if its claim can be released |
| Interleavings.AloneTicket | apps/notification/src/slack-incident-ticket.publisher.ts:67-128 | uninterrupted, a ticket is posted and stored while none is there, and its claim released |
| Interleavings.StepRespectsClaims | apps/notification/src/slack-incident-ticket.publisher.ts:67-128 | a single store operation of any handler touches only claims it owns or that nobody owns |
| Interleavings.RunSound | apps/notification/src/notification.service.ts:180-233 | over every interleaving used claims stay claimed and nobody owns a used claim or another's |
| Interleavings.EverythingHappensOnce | apps/notification/src/slack-incident-ticket.publisher.ts:184-217 | in every interleaving one provider call per incident, recipient and channel, one fallback per incident, and one successful Slack reply per ticket and update |
| Interleavings.PostedReplyStaysClaimed | apps/notification/src/slack-incident-ticket.publisher.ts:184-217 | a posted reply is claimed for ever |
| Interleavings.FailedReplyCanBeRetried | apps/notification/src/slack-incident-ticket.publisher.ts:209-216 | a failed reply releases its claim and another delivery can post it |
| Interleavings.TicketPostsDoNotOverlap | apps/notification/src/slack-incident-ticket.publisher.ts:89-125 | posts of one incident's ticket never overlap |
| Interleavings.FirstWritersStand | packages/notifications/src/index.ts:330-336 | the first stored acknowledgement and ticket of an incident stay |
| Interleavings.StepBreaksOrderExactly | packages/database/src/notifications.ts:131 | a step moves an incident backwards exactly when it saves a copy of a stage that the incident has left since; the acknowledgement transaction, which writes only over ACTIVE, never does |
| Interleavings.OrderKeptWithoutOverlap | apps/notification/src/notification.service.ts:177-206 | over a whole run in which no thread is about to write the state of an incident while another holds a copy of it, no incident moves backwards; transactions may overlap |
| Interleavings.BrokenOrderWasOvertaken | apps/notification/src/notification.service.ts:177-206 | in any run a step that moves an incident backwards saves a copy its thread has held since before another thread moved the incident past it |
| Interleavings.RaceIsReachable | apps/notification/src/notification.service.ts:177-180 | a run leads to a fallback that has read ACTIVE beside an acknowledgement about to be stored |
| Interleavings.StaleFallbackReopens | apps/notification/src/notification.service.ts:178-205 | from there the acknowledged incident becomes ACTIVE again and the administrator is called |
| Statistics.LinearTrend | packages/baselines/src/statistics.ts:99-155 | the loops compute the trend specification |
| Statistics.ErrorExpansion | packages/baselines/src/statistics.ts:118-131 | the squared error of any line in sums of products of deviations |
| Statistics.LeastSquares | packages/baselines/src/statistics.ts:92-131 | no slope and intercept has a smaller squared error than the fitted line, and no other has as small a one |
| Statistics.CauchySchwarz | packages/baselines/src/statistics.ts:120-135 | covariance squared is at most the product of the variances |
| Statistics.RSquaredMeaning | packages/baselines/src/statistics.ts:132-135 | rSquared lies in [0, 1], its clamp never acts, it is the explained share of the variance, and 1 exactly when varying values lie on a line |
| Statistics.SpanGivesSpread | packages/baselines/src/statistics.ts:108-130 | the guard on the time variance cannot fire once the samples span some time |
| Statistics.TrendMeaning | packages/baselines/src/statistics.ts:99-155 | a trend is reported exactly for three or more finite samples that span some time, and is then the least-squares fit |
| Statistics.SamplesMeaning | packages/baselines/src/statistics.ts:99-107 | exactly the readings with finite time and value count, each as often as given |
| Statistics.TrendReports | packages/baselines/src/statistics.ts:108-155 | the ends, the number and the span of the samples in time order, and the share of steps that do not decrease |
| Statistics.ChangeMeaning | packages/baselines/src/statistics.ts:137-155 | the change from first to last in hundredths of the size of the first; none from zero |
| Statistics.MonotonicFractionMeaning | packages/baselines/src/statistics.ts:137-153 | the fraction lies in [0, 1] and is 1 exactly when no step decreases |
| Summaries.PercentileDefined | packages/baselines/src/statistics.ts:180-188 | when a percentile is defined |
| Summaries.PercentileMonotone | packages/baselines/src/statistics.ts:180-188 | percentiles are monotone in the level across knots and stay within the samples |
| Summaries.PercentileMeaning | packages/baselines/src/statistics.ts:180-188 | a percentile lies on the line between the two order statistics around its level times the number of samples less one |
| Summaries.SummaryIsOrdered | packages/baselines/src/statistics.ts:158-177 | min, p50, p95, p99, max are in order, the mean lies between the ends, the variance is not negative |
| Summaries.SummaryMeaning | packages/baselines/src/statistics.ts:158-177 | mean and variance give the squared scatter of the samples around every centre, the ends are the least and greatest sample, and the percentiles are the quantiles at 0.5, 0.95 and 0.99 |
| Summaries.FiniteMeaning | packages/baselines/src/statistics.ts:158-177 | exactly the finite samples count, each as often as given |
| Summaries.SummaryIgnoresOrder | packages/baselines/src/statistics.ts:158-177 | a summary does not depend on the order of the samples |
| MergeRanges.MergeRanges | packages/baselines/src/history.ts:89-115 | the loop that extends the last range in place computes the merged components |
| MergeRanges.MergedMeaning | packages/baselines/src/history.ts:111-115 | the answer is the first `limit` components, or all but the last ones for a negative limit, in order and unchanged |
| MergeRanges.ComponentsMeaning | packages/baselines/src/history.ts:93-110 | before the limit the ranges are sorted, non-empty, strictly apart, and cover exactly the usable inputs |
| MergeRanges.UsableMeaning | packages/baselines/src/history.ts:93-100 | the usable inputs cover an instant exactly when one input parses and holds it |
| MergeRanges.SeparatedUnique | packages/baselines/src/history.ts:105-110 | strictly separated ranges are determined by what they cover |
| MergeRanges.MergingIsCanonical | packages/baselines/src/history.ts:89-115 | two inputs merge alike exactly when they cover the same instants |
| MergeRanges.MergedRejectsNothingElse | packages/clickhouse/src/history.ts:281-293 | the clause on merged ranges rejects nothing the originals would keep |
| MergeRanges.MergedClauseIsExact | packages/clickhouse/src/history.ts:281-293 | it keeps exactly the same samples if and only if there are at most `limit` components |
| WhereClause.BuildWhere | packages/clickhouse/src/store.ts:388-418 | with distinct parameter names the clauses and parameters built in place accept exactly the rows of the window and the filters below the cursor |
| WhereClause.ClausesMean | packages/clickhouse/src/store.ts:388-418 | clauses over bound parameters mean the query |
| Paging.FirstPerEventMeaning | packages/clickhouse/src/store.ts:439-441 | the first row per event of sorted rows is strictly descending, one per event, and stands for every row |
| Paging.WhereMeaning | packages/clickhouse/src/store.ts:388-418 | the rows asked for lie in the window, pass the filters and lie below the cursor in time and then event id |
| Paging.PageMeaning | packages/clickhouse/src/store.ts:420-450 | what one page shows and what its cursor leaves for later, however the store orders equal keys |
| Paging.WalkIsComplete | packages/clickhouse/src/store.ts:704-722 | following cursors shows every matching event, at its newest copy, in strictly descending order |
| Paging.SeenTwiceExactly | packages/clickhouse/src/store.ts:409-415 | an event is shown twice exactly when a page break falls between copies of it |
| Paging.RepeatsExactly | packages/clickhouse/src/store.ts:388-450 | some page size and reader see an event twice exactly when the table holds matching copies of an event at two keys and a matching row of another event below the newer copy |
| Paging.PagesShowEveryEventOnce | packages/clickhouse/src/store.ts:388-450 | with one timestamp per event the pages are exactly the distinct matching events, none skipped or repeated |
| Paging.PageSizeDoesNotMatter | packages/clickhouse/src/store.ts:704-722 | and the list does not depend on the page size |
| Paging.RepeatIsReachable | packages/clickhouse/src/store.ts:409-415 | a table on which an event is shown twice |
| Paging.PageMakesProgress | packages/clickhouse/src/store.ts:447-448 | a page with a cursor leaves fewer rows |
| Paging.ReadersFinish | packages/clickhouse/src/store.ts:704-722 | no reader gets more pages than matching rows plus one |
| Paging.WalkExists | packages/clickhouse/src/store.ts:704-722 | a walk to the end exists from every cursor |
| LikeSearch.EscapedMatchesItself | packages/clickhouse/src/store.ts:694-697 | an escaped term matches itself and nothing else |
| LikeSearch.LeadingPercent | packages/clickhouse/src/store.ts:164-171 | a leading percent sign matches at any position |
| LikeSearch.EscapedPatternMeansContains | packages/clickhouse/src/store.ts:164-171 | the escaped pattern matches exactly the texts containing the term |
| LikeSearch.SearchIsSubstring | packages/clickhouse/src/store.ts:164-171 | the search is a case-folded substring test for every term |
| LikeSearch.UnescapedSelectsMore | packages/clickhouse/src/store.ts:688-697 | without the escape it is not |
| Csv.ParseDelimited | apps/api/src/end-user-sms.controller.ts:52 | the index loop computes the fields of the rest of the line, given the value and quote state |
| Csv.EscapedMeaning | packages/reporting/src/exporter.ts:88-92 | a field is quoted exactly when it holds a quote, a comma or a line break, and its quotes are then doubled |
| Csv.RowRoundTrip | packages/reporting/src/exporter.ts:78-92 | parsing the comma-join of escaped fields gives the fields trimmed, with embedded commas, quotes and line breaks (section 2 of RFC 4180) |
| Csv.RowVerbatim | packages/reporting/src/exporter.ts:88-92 | they come back unchanged exactly when no field has white space at its ends |
| CsvImport.TrimKeepsFields | apps/api/src/end-user-sms.controller.ts:35-37 | trimming a line changes none of its fields, wherever its quotes are |
| CsvImport.DelimiterMeaning | apps/api/src/end-user-sms.controller.ts:36 | a bar in the first line is the delimiter, else a tab, else the comma |
| CsvImport.FileRoundTrip | apps/api/src/end-user-sms.controller.ts:35-37 | a file printed row by row, of any number of columns, is read back with its fields trimmed: when every row prints visibly, exactly if no field holds a line feed and the first line suggests no wrong delimiter; when no field holds a line feed, exactly if moreover no row prints blank |
| CsvImport.CutAndBlankVaries | apps/api/src/end-user-sms.controller.ts:35-37 | with both a line feed in a field and a row that prints blank, one file is read back and another is not |
| Envelopes.ParseMeaning | packages/queue/src/index.ts:99-121 | exactly which values are accepted as envelopes, unchanged, and which error the others get |
| Envelopes.HandleMeaning | packages/queue/src/index.ts:301-328 | exactly which envelopes reach the handler of a topic, with which id, payload and headers |
| Envelopes.PublishedIsHandled | packages/queue/src/index.ts:85-97 | a published message reaches the handler exactly when it is deliverable, each header as given or else its default |
| JetStream.JetStreamConsumer.OnMessage | packages/queue/src/index.ts:204-251 | one delivery, from handler to acknowledgement, retry or dead letter, is a run of the protocol with the stated ending, and with exactly the stated messages handled, acknowledged and dead-lettered |
| JetStream.JetStreamConsumer.OnFailure | packages/queue/src/index.ts:215-251 | the failure path dead-letters on the last delivery and otherwise asks for another, and touches nothing else |
| JetStream.StepKeepsSound | packages/queue/src/index.ts:204-251 | every step keeps the delivery invariant |
| JetStream.AcknowledgedIsNotLost | packages/queue/src/index.ts:204-251 | in every reachable state an acknowledged message was handled, or its bytes were dead-lettered after its last delivery |
| JetStream.LetterDiffersExactly | packages/queue/src/index.ts:221-247 | in every reachable state the letter under a message's dead-letter id is that of another message exactly when a message of other bytes was dead-lettered first under the same id |
| JetStream.DeadLettersAreExhausted | packages/queue/src/index.ts:221-247 | every dead letter is a stored message that had all its deliveries |
| JetStream.SharedLetterId | packages/queue/src/index.ts:224-237 | two messages share a dead-letter id exactly when their names are equal: the id of the producer, or else consumer and position |
| JetStream.StoreMeaning | packages/queue/src/index.ts:153-163 | a stored message is new and can be delivered, and no other is affected |
| JetStream.CrashMeaning | packages/queue/src/index.ts:204-251 | a crash abandons exactly the open deliveries |
| JetStream.LostExactly | packages/queue/src/index.ts:215-251 | in every reachable state a message is acknowledged exactly when one of its deliveries ended so; an exhausted message without such a delivery was abandoned at the last one |
| JetStream.LossIsReachable | packages/queue/src/index.ts:224-237 | such a loss can happen to any message that still has deliveries |
| JetStream.AckedIsFinal | packages/queue/src/index.ts:214-250 | an acknowledged message is not delivered again |
| JetStream.PublishedIsHandledOrReadable | packages/queue/src/index.ts:85-328 | an acknowledged message of a producer was handled, and then was deliverable; or, unless a message of other bytes was dead-lettered first under its id, it waits on the dead-letter topic, where a reader is handed its id, payload and original topic exactly when it was well formed |
| InMemoryQueue.Queue.Publish | packages/queue/src/index.ts:374-395 | a publish is refused with the state unchanged, or starts exactly one delivery for every subscriber |
| InMemoryQueue.RefusalMeaning | packages/queue/src/index.ts:374-382 | a publish is refused exactly without an open subscription or without room for one delivery each |
| InMemoryQueue.PublishMeaning | packages/queue/src/index.ts:374-395 | an accepted publish starts exactly one delivery of the message for each open subscription of its topic |
| InMemoryQueue.SubscriberReceives | packages/queue/src/index.ts:374-424 | over every run a subscriber receives every message accepted on its topic between its subscription and its closing, in exactly one delivery |
| InMemoryQueue.Queue.Enqueue | packages/queue/src/index.ts:379-394 | the loop over the subscribers starts one fresh delivery each and counts it |
| InMemoryQueue.Queue.Finish | packages/queue/src/index.ts:389-392 | a finished delivery leaves the pending set and the count |
| InMemoryQueue.Queue.Subscribe | packages/queue/src/index.ts:396-413 | subscribing is its step, refused on a closed queue |
| InMemoryQueue.SubscriptionsAfter | packages/queue/src/index.ts:396-424 | what each event does to the open subscriptions |
| InMemoryQueue.Queue.CloseSubscription | packages/queue/src/index.ts:408-411 | closing a subscription waits for exactly its own deliveries |
| InMemoryQueue.Queue.Close | packages/queue/src/index.ts:417-424 | closing the queue waits for the deliveries of the open subscriptions |
| InMemoryQueue.RunKeepsValid | packages/queue/src/index.ts:361-425 | in every run the counter is the number of unfinished deliveries, of closed subscriptions too, and never exceeds the capacity |
| InMemoryQueue.DeliveriesAreConserved | packages/queue/src/index.ts:374-395 | every delivery started has finished or is counted |
| InMemoryQueue.FinishedOnce | packages/queue/src/index.ts:383-394 | no delivery finishes twice |
| InMemoryQueue.ClosedStartsNothing | packages/queue/src/index.ts:417-424 | a closed queue starts nothing more |
| BaselineCache.CachedBaselineProvider.ForWorkload | packages/baselines/src/provider.ts:43-57 | a lookup hits, joins a load in flight, or starts one, exactly as its step |
| BaselineCache.CachedBaselineProvider.FinishLoad | packages/baselines/src/provider.ts:63-81 | a finished load stores the per-metric map, or an empty one for a shorter time, and leaves the in-flight table |
| BaselineCache.CachedBaselineProvider.Remember | packages/baselines/src/provider.ts:83-92 | the eviction loop leaves the newest entries within capacity |
| BaselineCache.CachedBaselineProvider.Invalidate | packages/baselines/src/provider.ts:59-61 | invalidation empties the cache and nothing else |
| BaselineCache.MapOfMeaning | packages/baselines/src/provider.ts:78-79 | the map of a load holds exactly the metrics answered, each at its last baseline |
| BaselineCache.RunKeepsSound | packages/baselines/src/provider.ts:43-92 | over every run the cache is bounded, ordered by load, backed by the newest load of each key, and loads in flight are unique per key |
| BaselineCache.HitsAreFresh | packages/baselines/src/provider.ts:46-48 | every map answered from the cache is that of the newest finished load of its key, finished less than `ttlMs` before; an empty one of a failed load less than ten seconds before as well |
| BaselineCache.CachedIsHitExactly | packages/baselines/src/provider.ts:43-81 | a load still in the cache is answered from exactly within those bounds |
| BaselineCache.OneLoadAtATime | packages/baselines/src/provider.ts:49-56 | at most one load per workload is in flight, and a miss joins it |
| BaselineCache.CacheIsBounded | packages/baselines/src/provider.ts:90-91 | the cache never exceeds its capacity |
| BaselineCache.RunEvictsOldest | packages/baselines/src/provider.ts:88-91 | a load missing from the cache without having been superseded or cleared was pushed out by newer ones filling it |
| BaselineCache.InvalidationForgets | packages/baselines/src/provider.ts:59-61 | after an invalidation no entry comes from a load finished before it |
| BaselineCache.InvalidationMissesRunningLoad | packages/baselines/src/provider.ts:52-61 | but a load in flight across it is still stored and answered from |
| BaselineCache.KeyIsSharedExactly | packages/baselines/src/provider.ts:95-97 | another workload shares the key of a workload exactly when its cluster, namespace or name holds a bar |
| OnCall.ScheduleChildren.Create | packages/notifications/src/on-call.ts:49 | an insert is refused on a known id and otherwise appends |
| OnCall.OnCallController.Add | apps/api/src/on-call.controller.ts:149-176 | a guarded insert answers and stores exactly what the guards decide, and keeps ranges disjoint |
| OnCall.OnCallController.AddShift | apps/api/src/on-call.controller.ts:149-176 | adding a shift answers and stores exactly what the guards decide, and keeps shifts and overrides disjoint |
| OnCall.OnCallController.AddOverride | apps/api/src/on-call.controller.ts:194-224 | adding an override answers and stores exactly what the guards decide, and keeps shifts and overrides disjoint |
| OnCall.AcceptedExactly | apps/api/src/on-call.controller.ts:149-224 | an insert is accepted exactly when schedule, contact and dates are usable and the stored ranges stay disjoint with it |
| OnCall.RefusedBecause | apps/api/src/on-call.controller.ts:149-224 | a refusal names the first thing wrong: schedule, its being disabled, contact, dates, their order, or an overlap |
| OnCall.InsertsStayDisjoint | apps/api/src/on-call.controller.ts:149-224 | whatever is attempted, the stored ranges of a schedule stay pairwise disjoint |
| OnCall.InsertedExactly | apps/api/src/on-call.controller.ts:149-224 | after any attempts one more is stored exactly when the ranges stay disjoint with it |
| OnCall.GuardIsExact | packages/notifications/src/on-call.ts:47-49 | the guard refuses exactly the ranges that would break disjointness |
| OnCall.ActiveIsWellDefined | packages/notifications/src/on-call.ts:49 | then the active value does not depend on the order of the store, and the first match is the latest-starting one |
| OnCall.ResolveMeaning | packages/notifications/src/on-call.ts:50-61 | somebody is on call exactly when the schedule is known and enabled and a shift covers the instant: the override's contact if one covers it too, until the earlier end |
| OnCall.ResolveExpiresLater | packages/notifications/src/on-call.ts:56-61 | an answer expires after the instant it is given for |
| OnCall.HoldsExactly | packages/notifications/src/on-call.ts:56-61 | the contact holds until then exactly when an override is active already or no override by somebody else begins before |
| OnCall.UpcomingOverrideIsMissed | packages/notifications/src/on-call.ts:56-61 | a schedule on which it does not hold |
| TemporaryPassword.GenerateTemporaryPassword | packages/auth/src/provisioning.ts:39-64 | short requests are refused; otherwise the password is the shuffle of the drawn characters |
| TemporaryPassword.DrawCharacters | packages/auth/src/provisioning.ts:45-52 | one character of each class, then any |
| TemporaryPassword.ShuffleInPlace | packages/auth/src/provisioning.ts:54-62 | the in-place exchange loop computes the shuffle |
| TemporaryPassword.ShufflePermutes | packages/auth/src/provisioning.ts:54-62 | the shuffle only moves characters |
| TemporaryPassword.ChoicesAreOrders | packages/auth/src/provisioning.ts:54-62 | for distinct items every order comes from exactly one sequence of choices, so uniform choices shuffle uniformly |
| TemporaryPassword.PolicyMeaning | packages/auth/src/passwords.ts:33-45 | exactly which passwords meet the policy |
| TemporaryPassword.GeneratedMeetsPolicy | packages/auth/src/passwords.ts:33-45 | whatever is drawn, the password meets the policy exactly when it has at most 128 characters |
| TemporaryPassword.GeneratedIsReadable | packages/auth/src/provisioning.ts:13-25 | no generated password holds an ambiguous character or white space |

## Left out

- Stores, broker, database and provider: SQL text, ClickHouse, Postgres, NATS, Retell and Slack clients appear only as abstract stores and as outcomes that may succeed or fail.
- Cryptography: HMAC, scrypt and AES-GCM are abstract functions; the audit hash is any function giving 32 bytes, and results that rest on distinct hashes say "or two payloads collide". JSON text is the value it encodes, and the metadata of an audit record stands for its canonical text.
- Time and randomness: clocks, random identifiers, random draws and password salts are inputs; instants are integers, so ISO texts are compared as times and not as strings.
- IEEE arithmetic: numeric statements are over exact reals, and square roots of variances are not taken.
- NotificationWorld: the communications store that mirrors attempts, timestamps, and the publishing of lifecycle events to the queue are not modelled; nor are test calls and test messages, or the choice of end users by outage and service.
- NotificationRuns: a handler is one step, so failures of a store in the middle of a handler other than the Slack and API acknowledgements and the voice transaction, and the concurrency of recipients inside one handler are not modelled here; recipients are handled in list order.
- Idempotency keys: texts joined by colons are modelled as tuples, so colons inside identifiers cannot make two keys equal.
- Interleavings.TicketPostsDoNotOverlap: claims one stored ticket and non-overlapping posts only; the check for an existing ticket precedes the claim, so two top-level posts after each other remain possible.
- Interleavings: a read of the state and of the acknowledgement by the voice handler is one step; audit appends and attempt saves are left out there, as no claim or state depends on them.
- UserRepository: each operation is atomic although some wait for a password hash in between; identifiers and token hashes are assumed not to repeat; organisation-scoped lookups and listings are left out, and so is the unique index on user names in the database.
- LikeSearch.SearchIsSubstring: lower-casing by the client and by the database are one abstract function.
- Paging: the cursor text codec is the identity, and timestamps are whole milliseconds.
- CsvImport.FileRoundTrip: files that hold both a row printing as a blank line and a field with a line feed are not characterised further (`CutAndBlankVaries`), because a piece of the field can stand in for the blank row; PDF and JSON uploads, header names and row validation are left out.
- JetStream: redelivery timing, reconnects and draining are left to the server; a second publish under one dead-letter id is dropped whenever it comes.
- BaselineCache: a negative capacity, on which the eviction loop would not end, is excluded.
- OnCall: the check and the insert are one step, so two concurrent inserts can still overlap; time zones and text dates are left out.
- Text: a text is a sequence of Unicode characters, not of UTF-16 units; regular expressions for e-mail and phone numbers, and user-name candidates and their allocation, are left out.
- Plan limits, role tables, redaction, e-mail and Slack layouts, the detector, correlation and rule engines, and the counter helpers `counterDelta` and `counterRate` are left out as plumbing or one-line arithmetic.
