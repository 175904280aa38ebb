# Email assistant: verification model

A Dafny model of the parts of the email assistant whose correctness is a matter of
protocol, of encoding, or of bookkeeping, with proofs of what they promise.

* **Refresh-token rotation** (`Sessions`, `SessionEndings`, `SessionService`). Rows, requests in flight with a
  program counter each, and the tokens handed to clients; every statement that commits is one
  step, any number of requests interleave, and each may die between steps.
* **Sending a draft** (`Sending`, `SendProcessor`) and **staged files** (`Staging`,
  `StagingService`). Racing, repeated and retried jobs over one draft; files staged, claimed,
  discarded and redelivered.
* **Ingest** (`Ingest`, `IngestProcessor`). A mailbox as an append-only history, handlers that
  walk it, cursors written out of order, contacts counted in the insert's transaction.
* **MIME composition** (`Encoding`, `Strings`, `Headers`, `Composer`) against a recipient's
  parser (`MimeParser`, `MimeParts`, `MimeRoundTrip`, `HeaderNames`) and header decoder
  (`EncodedWords`), field by field (`AddressFields`, `MessageFields`), and **threading**
  (`Threading`) over conversations of any length.
* **Envelope encryption** (`Envelope`, `EnvelopeService`) over a cache of shared, zeroed buffers
  (`KeyCache`, `KeyLifetime`, `Kms`), and one record over the years (`EnvelopeHistory`).
* **Self-contained algorithms**: base32 with a wrapping accumulator (`Base32`), the recipient
  splitter (`Recipients`, `RecipientList`, `Addresses`, `RecipientForms`), the fixed-window
  limiter (`RateLimit`), the metrics registry (`HttpMetrics`, `MetricsText`) and the digest schedule (`Digest`).

`Basics`, `Text`, `Decimals` and `Strings` hold what they share.

The protocols are state machines (`Next` over events, `Run` over sequences of them) whose
theorems are about every reachable state or every continuation of one. Beside each, a class has
the tables as fields and a method for every statement that commits; a whole handler is a method
that calls them in the program's order, lets everything else happen at each `await` (`Wait`,
`Others`), and states that what happened is a run of the machine. The loops of the pure code
are methods, each equal to a function about which the properties are proved.

## Assumptions

* Each `updateMany`, `createMany` or transaction is one atomic step; tokens cannot be guessed.
* Clocks, random values, provider answers and failures are inputs, free to be anything. Times
  that one statement needs from one clock reading are one input.
* `char` is a Unicode scalar value, so strings hold no lone surrogates; string lengths that the
  program compares with limits are measured in UTF-16 units (`Strings.Width`).
* Messages: the message id, `inReplyTo`, the date and the boundary tokens have no line break;
  ids in `references` are not empty and have no white space.
* The round trips ask of the cipher that it opens what it sealed and keeps the length. What it
  refuses is shown for an ideal authenticated cipher (`Envelope.IsIdeal`), which opens only what
  was sealed under that key, nonce and associated data. Callers of the cache never write to the
  buffers they borrow.
* The generator of mailbox changes keeps the provider's contract: it yields what lies between
  the stored position and the position it returns (`packages/mail/src/provider.ts:52-64`).

## Where the code and its documentation differ

The model follows the code.

* `http-metrics.ts:189-195` says that a status new to a known route is never folded. At the cap
  it is (`HttpMetrics.KnownRouteIsFolded`).
* `send.processor.ts:64-66` says that a duplicated job cannot send a second copy. A failure after
  the provider's acceptance can (`Sending.SendBoundIsTight`), and a cancel can then succeed on a
  draft that has gone out (`Sending.CancelAfterSending`).
* `send.processor.ts:79`: a failure of the account load is covered by no handler
  (`Sending.LoadFailureStrands`); when a draft is left in `sending` for good is exact
  (`Sending.StrandedExactly`).
* `ingest.processor.ts:118-130` speaks of a notification for every new email. A failure between
  the insert and the queue loses it (`Ingest.CrashOrResyncDrops`, `Ingest.DroppedForever`).
* `staged-attachment.repository.ts:37-66` makes a redelivered webhook a no-op. After a discard it
  is not (`Staging.DiscardForgetsTheMessage`).
* `kms.ts:173-186` zeroes a buffer that a caller may hold and not have used yet
  (`Kms.CachingKms.HeldKeyIsLost`); a decryption in that gap works with zeros. When that can
  happen is exact (`KeyCache.HandedOutKeyIsSafe`), and with an ideal cipher it is an error and
  never a wrong plaintext (`Envelope.LostKeyOpensNothingElse`).
* `mime-builder.ts:166-169` says that a name is quoted when it would break the header. A name with a
  comma, outside `[\w .'-]`, is not, and its address then reads as two
  (`AddressFields.OneRecipientExactly`).
* `rate-limit.ts:16-21` speaks of 2N requests across a window boundary. That is the bound while
  every request is counted in the window in which it read the clock; when some are counted later,
  3N can be (`RateLimit.ThriceTheLimitIsMet`).
* `digest-schedule.ts:23-25` says a digest is not sent again at the next tick. With the clock set
  back in between it is (`Digest.SetBackSendsTwice`).

## Model

| member | source | states |
|---|---|---|
| `Sessions.RevokedFamilyIsOver` | apps/api/src/auth/session.service.ts:88-246 | After a `revokeFamily` or a `revokeAll` has committed, in every continuation: each delivered token of the family is revoked, also one delivered later; no row of it gains a replacement; every rotation that reports success had claimed its row before |
| `Sessions.SignedOutUserIsOver` | apps/api/src/auth/session.service.ts:242-246 | The same for `revokeAll`: it revokes every row the user has and no other, and from then on each login the user had is over in that sense, in every continuation |
| `Sessions.UnrevokedRowsAreOrphans` | apps/api/src/auth/session.service.ts:158-189 | A row of a revoked family that is unrevoked was never delivered and belongs to a request that issued it and is still to revoke, or died there |
| `Sessions.QuietDeadFamilyIsAllRevoked` | apps/api/src/auth/session.service.ts:185-189 | When no request holds a replacement it never installed, every row of a revoked family is revoked |
| `Sessions.CrashLeavesAnOrphan` | apps/api/src/auth/session.service.ts:158-169 | A run that ends with nothing in flight and an unrevoked row in a revoked family: the crash between issue and claim |
| `Sessions.EveryOtherPresentationIsReuse` | apps/api/src/auth/session.service.ts:117-211 | Once a token was rotated, whoever presents it, before or after and in any interleaving, is still in flight with it, has died with it, is the one that rotated it, or is rejected as reuse with the family revoked; the exception had been turned away as expired before the winning claim |
| `Sessions.PresentationIsKept` | apps/api/src/auth/session.service.ts:97-211 | A request that presented a row keeps presenting it until it ends or dies: it is never turned away as unknown |
| `Sessions.ExpiredIsOld` | apps/api/src/auth/session.service.ts:145-147 | No request is turned away as expired after the row it presents was replaced |
| `SessionEndings.ExpiredTokenIsRefused` | apps/api/src/auth/session.service.ts:117-147 | A token that has expired when it is looked at is not rotated in any continuation, and the look writes nothing; it is refused as expired exactly if it was neither replaced nor revoked, and as reuse otherwise |
| `SessionEndings.SpentTokenIsRejected` | apps/api/src/auth/session.service.ts:117-143 | A token that was replaced or revoked when it is looked at is rejected as reuse, or its request dies, in every continuation |
| `SessionEndings.ForgedTokenIsUnknown` | apps/api/src/auth/session.service.ts:97-111 | A token that was never issued is refused as unknown for good, and nothing is written |
| `SessionEndings.SignInStartsAFamily` | apps/api/src/auth/session.service.ts:74-80 | A login hands out one live token of a new family, without a second factor, and touches no other row |
| `SessionEndings.SignedOutTokenIsOver` | apps/api/src/auth/session.service.ts:217-224 | Signing out one session revokes exactly that row if it is the user's; it stays revoked, and no request rotates it that had not claimed it before |
| `SessionEndings.SignedOutFamilyIsOver` | apps/api/src/auth/session.service.ts:231-240 | Signing out a family revokes exactly the user's rows of it, and ends a login of the user as a reuse does |
| `SessionEndings.MarkedSessionKeepsIt` | apps/api/src/auth/session.service.ts:285-293 | A second factor is recorded on the user's own unrevoked session and no other, and kept until it is marked again |
| `Sessions.OneLoginOneChain` | apps/api/src/auth/session.service.ts:74-80 | The tokens handed out by one login lie on one strictly growing chain along `replacedById`; all but its last row were delivered and replaced, and only the last can be unreplaced |
| `Sessions.SecondFactorHasLineage` | apps/api/src/auth/session.service.ts:149-156 | A row carries `mfaSatisfiedAt` only from a mark at that time on it or on a row it was issued from |
| `Sessions.DeliveredIsNotLoose` | apps/api/src/auth/session.service.ts:164-213 | A delivered token is never the uninstalled replacement of any request |
| `Sessions.NextKeepsInv` | apps/api/src/auth/session.service.ts:74-321 | Every committed step of every method keeps the protocol invariant |
| `Sessions.RunKeepsInv` | apps/api/src/auth/session.service.ts:74-321 | So does every run, whatever the interleaving and the crashes |
| `SessionService.Service.Rotate` | apps/api/src/auth/session.service.ts:88-214 | `rotate` as its separately committed steps with all other requests between them: it runs the protocol steps of its own request and ends with the answer these give; a token that was revoked or replaced at the start is reuse, and one that has expired is never rotated, whatever the others do |
| `SessionService.Service.IssueRow` | apps/api/src/auth/session.service.ts:296-321 | One new row of the family, with the second factor handed in |
| `SessionService.Service.ClaimRow` | apps/api/src/auth/session.service.ts:164-169 | The conditional claim: installs the replacement exactly when the row is unreplaced and unrevoked, and says which |
| `SessionService.Service.RevokeFamily` | apps/api/src/auth/session.service.ts:231-240 | Every row of the user's family becomes revoked and changes in nothing else; every other row stays as it was |
| `SessionService.Service.Replace` | apps/api/src/auth/session.service.ts:149-189 | Issue, then claim, then deliver or revoke, with others in between |
| `SessionService.Service.Reject` | apps/api/src/auth/session.service.ts:117-143 | Reuse: the family is revoked before the request is refused |
| `SessionService.UndisturbedRotationSucceeds` | apps/api/src/auth/session.service.ts:88-214 | With nobody in between, a live token is rotated, its replacement delivered with the same second factor |
| `Sending.AtMostOneHolder` | apps/worker/src/repositories/draft.repository.ts:124-136 | Whatever jobs race, repeat or retry, at most one handler is past the claim of a draft |
| `Sending.SendBound` | apps/worker/src/processors/send.processor.ts:96-142 | The provider has taken the message at most once plus the number of requeues by handlers whose own message had been taken |
| `Sending.SendBoundIsTight` | apps/worker/src/processors/send.processor.ts:116-142 | The bound is met: n retryable failures of the confirmation reply give n + 1 copies |
| `Sending.FailedAndCancelledAreFinal` | apps/worker/src/repositories/draft.repository.ts:198-236 | `failed` and `cancelled` never change, and no provider call starts after them |
| `Sending.CancelIsFinal` | apps/worker/src/repositories/draft.repository.ts:198-206 | After a cancel that returned true no send ever starts |
| `Sending.CancelledUnsentExactly` | apps/worker/src/repositories/draft.repository.ts:198-206 | A cancelled draft has not gone out exactly when no requeue followed an acceptance |
| `Sending.CancelAfterSending` | apps/worker/src/processors/send.processor.ts:116-142 | A run in which a draft that went out is queued again and then cancelled |
| `Sending.LoadFailureStrands` | apps/worker/src/processors/send.processor.ts:79-82 | After a failed `accounts.load` the draft stays in `sending` for good |
| `Sending.StrandedExactly` | apps/worker/src/processors/send.processor.ts:61-166 | A draft in `sending` stays there in every continuation exactly when no handler past its claim is left |
| `Sending.StrandingEventsExactly` | apps/worker/src/processors/send.processor.ts:79-165 | It gets there exactly by a failed load, a failed `markFailed`, or the death of its handler |
| `Sending.AStrandedDraft` | apps/worker/src/processors/send.processor.ts:79-82 | A run that ends in such a state, with no provider call made |
| `Sending.RunKeepsInv` | apps/worker/src/repositories/draft.repository.ts:124-236 | Every run of claims, sends, marks, failures and cancels keeps the invariant |
| `SendProcessor.Draft.ClaimForSending` | apps/worker/src/repositories/draft.repository.ts:124-195 | Claims exactly a queued draft whose body decrypts; a decryption that fails rolls the claim back |
| `SendProcessor.Draft.CancelIfQueued` | apps/worker/src/repositories/draft.repository.ts:198-206 | Cancels exactly a queued draft and reports whether it did |
| `SendProcessor.Draft.MarkSent` | apps/worker/src/repositories/draft.repository.ts:208-221 | Sets `sent` whatever the status was |
| `SendProcessor.Draft.MarkFailed` | apps/worker/src/repositories/draft.repository.ts:224-236 | Requeues or fails the draft whatever its status was |
| `SendProcessor.Draft.Handle` | apps/worker/src/processors/send.processor.ts:61-166 | `handle` with every other job in between, for every way its calls can end (`World`): its own steps are exactly those the calls' endings lead to, it is skipped exactly when its claim finds the draft not queued, completes only through claim, load, send, mark and confirm, and otherwise throws |
| `SendProcessor.Draft.LoadAndSend` | apps/worker/src/processors/send.processor.ts:79-114 | The load outside the `try`, where a failure is the last step, then the send: exactly the steps that follow from the calls' endings; it completes only if all of them succeed |
| `SendProcessor.FailuresAreMarkedOnce` | apps/worker/src/processors/send.processor.ts:79-165 | A job that claimed the draft marks a failure exactly when the load succeeded and something after it did not, once and as its last step; otherwise it is load, send, mark and confirm |
| `SendProcessor.AloneIsSettled` | apps/worker/src/processors/send.processor.ts:61-166 | What a job that nobody disturbs leaves, for every way its calls can end: at most one provider call; the draft sent, queued again or failed by the last error's retryability; and when it stays in `sending` |
| `SendProcessor.Draft.Caught` | apps/worker/src/processors/send.processor.ts:136-165 | The catch block: its only own step is one mark by retryability, which may itself fail; then the error is rethrown |
| `SendProcessor.Draft.MarkAndConfirm` | apps/worker/src/processors/send.processor.ts:116-135 | The mark, then the confirmation, both inside the `try`: a failure of either is followed by the catch block's mark alone, and the job throws |
| `Staging.EveryDraftFits` | apps/worker/src/services/attachment-staging.service.ts:86-123 | With one `stage` of a user at a time, every draft's files stay within the byte budget and ten files, whatever was staged, dropped, redelivered or left to expire |
| `Staging.OneDraftPerFile` | apps/worker/src/repositories/staged-attachment.repository.ts:89-101 | No file is on two drafts |
| `Staging.ClaimedFilesStay` | apps/worker/src/repositories/staged-attachment.repository.ts:89-126 | A claimed file is never moved or discarded, and no later draft claims it |
| `Staging.ComposeTakesAllPending` | apps/worker/src/repositories/draft.repository.ts:81-110 | A compose picks up exactly the user's pending files and leaves none pending |
| `Staging.RedeliveryAddsNothingExactly` | apps/worker/src/repositories/staged-attachment.repository.ts:37-66 | A redelivered webhook inserts nothing exactly when the message's row is still there |
| `Staging.DiscardForgetsTheMessage` | apps/worker/src/repositories/staged-attachment.repository.ts:119-126 | After a discard the same webhook, redelivered, passes the checks and stages its file again: the message has its row back, with a new expiry |
| `Staging.RacingStagesOverrun` | apps/worker/src/services/attachment-staging.service.ts:86-123 | Two `stage` calls of one user that both check before either inserts overrun the byte budget exactly when their files do not fit together, that is, exactly when the second would have been refused after the first |
| `Staging.RacingStagesCanOverrun` | apps/worker/src/services/attachment-staging.service.ts:86-123 | Any two files that are within the budget each and not together do so, with nothing staged before |
| `Staging.RunKeepsInv` | apps/worker/src/repositories/staged-attachment.repository.ts:37-126 | Every run keeps the table's invariant |
| `Staging.AdmittedExactly` | apps/worker/src/services/attachment-staging.service.ts:86-108 | A file passes exactly if it fits into 20 MB together with the user's waiting files and these are fewer than ten; which reason is given otherwise |
| `Staging.HeldForADay` | apps/worker/src/services/attachment-staging.service.ts:112-127 | A file that passes becomes one waiting row that expires a day after it was sent |
| `Staging.ComposeClaimsExactly` | apps/worker/src/repositories/staged-attachment.repository.ts:89-101 | A compose puts exactly the user's unclaimed, unexpired files on the draft and changes no other row |
| `Staging.DiscardDropsExactly` | apps/worker/src/repositories/staged-attachment.repository.ts:119-126 | A discard deletes exactly those rows |
| `StagingService.Table.Stage` | apps/worker/src/services/attachment-staging.service.ts:68-145 | The checks in their order, then, after whatever others did, the insert: a refusal changes nothing, a duplicate is a message that has a row by then, and a staged file is one more row; the count told is from before the others |
| `StagingService.Table.Insert` | apps/worker/src/repositories/staged-attachment.repository.ts:37-66 | Inserts one row unless the message has one |
| `StagingService.Table.CreateForSend` | apps/worker/src/repositories/draft.repository.ts:81-110 | Claims the pending files for the new draft and returns how many files are on it |
| `StagingService.Table.DiscardPending` | apps/worker/src/repositories/staged-attachment.repository.ts:119-126 | Removes exactly the pending rows and returns how many |
| `StagingService.Table.TotalBytes` | apps/worker/src/services/attachment-staging.service.ts:99-112 | The sum over the files |
| `StagingService.DiscardCounts` | apps/worker/src/repositories/staged-attachment.repository.ts:119-126 | What a discard leaves and what was pending add up to the table |
| `Ingest.NothingBelowTheCursorIsSkipped` | apps/worker/src/processors/ingest.processor.ts:55-159 | In every reachable state each message added below the stored cursor is stored, was gone when fetched, or lies below a recorded reset |
| `Ingest.CursorWasReported` | apps/worker/src/repositories/message.repository.ts:243-250 | A cursor is only ever a position the provider reported |
| `Ingest.NewOnceAndEnqueuedOnceUnlessDropped` | apps/worker/src/repositories/message.repository.ts:52-189 | `isNew` is reported exactly once for each stored message; its analysis was enqueued once, is about to be, or was dropped by a failure in between: exactly one of the three |
| `Ingest.DroppedForever` | apps/worker/src/processors/ingest.processor.ts:113-130 | A dropped notification is never made up for, however often the message is redelivered |
| `Ingest.DroppedExactly` | apps/worker/src/processors/ingest.processor.ts:113-168 | A step drops a message exactly when it is the failure or death of the handler that has stored it and not yet enqueued it |
| `Ingest.CrashOrResyncDrops` | apps/worker/src/processors/ingest.processor.ts:113-159 | Runs in which a stored message is dropped and never enqueued: one by a crash, one by a failure that makes the handler start over |
| `Ingest.UndisturbedHandlerStoresEverything` | apps/worker/src/processors/ingest.processor.ts:55-137 | Left alone, with nothing failing, a handler stores every message added from the cursor on, enqueues each new one once, drops none, and leaves the cursor at the end of the mailbox |
| `Ingest.CompleteIsReachable` | apps/worker/src/processors/ingest.processor.ts:55-137 | Such a handler is a run of the protocol |
| `Ingest.FreshCursorIsTheEnd` | apps/worker/src/processors/ingest.processor.ts:146-159 | A handler that asks for the mailbox's position stores the end of the mailbox as the cursor |
| `Ingest.ContactsCountStoredMail` | apps/worker/src/repositories/contact.repository.ts:45-84 | The address book names exactly the trimmed lower-case addresses, of those with an `@`, from which a message is stored, and `messagesReceived` is the number of those |
| `Ingest.SpellingsShareAContact` | apps/worker/src/repositories/contact.repository.ts:51-52 | Senders that differ in case or outer white space alone are one contact |
| `Ingest.RecordKeepsContacts` | apps/worker/src/repositories/contact.repository.ts:45-84 | The upsert in the same commit keeps that count |
| `Ingest.RunKeepsInv` | apps/worker/src/processors/ingest.processor.ts:55-169 | Every interleaving of handlers, crashes and late cursor writes keeps the invariant |
| `IngestProcessor.Tables.Handle` | apps/worker/src/processors/ingest.processor.ts:55-169 | `handle` with all other handlers in between and the failures of its calls as inputs: a run of the protocol that ends its handler; it throws only if a call threw, starts over only on an error that reads as an expired history, and otherwise ends by writing the cursor as its last step, unless the provider reports no position |
| `IngestProcessor.Tables.Walk` | apps/worker/src/processors/ingest.processor.ts:88-137 | The loop over the generator: if no call throws, the cursor is written last, with the position reached; that position is behind every change that was there at the start, as far as the pages go, and the messages up to it are stored if the provider still had them |
| `IngestProcessor.Tables.ProcessChange` | apps/worker/src/processors/ingest.processor.ts:92-131 | One change: skipped, or its message stored, or known to be gone; or a call threw and the handler still owns its walk |
| `IngestProcessor.Tables.InsertMessage` | apps/worker/src/repositories/message.repository.ts:52-189 | One row at most for each (account, message id); the contact is counted with it and only then |
| `IngestProcessor.Tables.RecordInbound` | apps/worker/src/repositories/contact.repository.ts:45-84 | Creates the contact of the trimmed lower-case address or counts one more message for it; an address without an `@` records nothing |
| `IngestProcessor.Tables.Resync` | apps/worker/src/processors/ingest.processor.ts:146-159 | A fresh position is asked for and stored as the cursor, as the last two steps of the handler, unless one of the two calls throws |
| `IngestProcessor.Tables.Store` | apps/worker/src/processors/ingest.processor.ts:133-137 | The position reached, if reported, becomes the cursor, and nothing is written otherwise |
| `Encoding.Utf8RoundTrip` | packages/mail/src/mime-builder.ts:135 | Strict UTF-8 decoding gives the text back |
| `Encoding.Base64RoundTrip` | packages/mail/src/mime-builder.ts:135 | Base64 decoding gives the bytes back, for every length |
| `Encoding.Base64Alphabet` | packages/mail/src/mime-builder.ts:135 | Only alphabet characters and padding are emitted |
| `Headers.EncodeHeaderValueByChunks` | packages/mail/src/mime-builder.ts:198-221 | The loop computes the greedy chunking |
| `Headers.PiecesSplitTheValue` | packages/mail/src/mime-builder.ts:207-217 | The chunks put together are the cleaned value: nothing lost, no code point split |
| `Headers.PiecesFit` | packages/mail/src/mime-builder.ts:209-217 | Every chunk is non-empty and its base64 at most 45 characters |
| `Headers.PiecesAreGreedy` | packages/mail/src/mime-builder.ts:209-217 | No chunk ends while its successor's first character would fit |
| `Headers.WordsAreShort` | packages/mail/src/mime-builder.ts:218-220 | Every encoded word has at most 56 characters, within the 75 of section 2 of RFC 2047 |
| `EncodedWords.HeaderValueDecodesExactly` | packages/mail/src/mime-builder.ts:198-221 | What a reader shows is the cleaned value, whatever words it decodes, except for ASCII text with a token that it decodes; any reader whose words are longer than their text shows those otherwise |
| `EncodedWords.EveryReaderShowsTheValueExactly` | packages/mail/src/mime-builder.ts:198-221 | Every reader that decodes nothing but words of that shape, and the words written here, shows the cleaned value exactly when it is not ASCII or no token of it has the shape, in any charset, encoding or case and between any white space |
| `EncodedWords.EncodedWordInAscii` | packages/mail/src/mime-builder.ts:200-201 | ASCII text that has the shape of an encoded word (section 2 of RFC 2047) is sent as it is and shown as what the reader takes it for |
| `EncodedWords.OtherSpellings` | packages/mail/src/mime-builder.ts:200-201 | Words in lower case, in quoted-printable and in other charsets have the shape |
| `EncodedWords.EncodedWordAfterATab` | packages/mail/src/mime-builder.ts:200-201 | So do words after a tab, which the cleaning leaves in |
| `Headers.FoldHeader` | packages/mail/src/mime-builder.ts:224-242 | The loop computes the folded lines |
| `Headers.FoldingUnfolds` | packages/mail/src/mime-builder.ts:224-242 | The folded header unfolds to the header (section 2.2.3 of RFC 5322); lines break only before an id that did not fit; no line is over 78 unless it holds one id, when no id reads like the header's name |
| `Headers.BracketedIdsFit` | packages/mail/src/mime-builder.ts:224-243 | For ids in angle brackets, as replies list them, no line is over 78 characters but one that holds a single id |
| `Headers.IdLikeTheNameOverruns` | packages/mail/src/mime-builder.ts:232 | An id equal to the name with its colon makes the next id overrun the line |
| `Composer.Chunk` | packages/mail/src/mime-builder.ts:293-299 | The loop: lines of at most 76 characters, all but the last full, that join to the input |
| `Composer.ComposeMime` | packages/mail/src/mime-builder.ts:62-119 | The headers pushed in order and the body by kind; refused without a recipient or with a line break in an address |
| `AddressFields.BareFieldReads` | packages/mail/src/mime-builder.ts:170-174 | Without a name the field is the address alone, and it is read back |
| `AddressFields.AsciiNameReads` | packages/mail/src/mime-builder.ts:170-186 | A name in ASCII and its address are read back from the field, but for quotes at the ends of a name that is not simple |
| `AddressFields.PeriodsAreQuoted` | packages/mail/src/mime-builder.ts:179-183 | A name of letters, digits, underscores, spaces, periods, apostrophes and hyphens is quoted exactly if it has a period |
| `AddressFields.EncodedNameIsShown` | packages/mail/src/mime-builder.ts:176-186 | A name beyond ASCII is shown by every decoder as it is, in front of exactly the address given; the part before the brackets alone decodes to it |
| `AddressFields.AddressListReads` | packages/mail/src/mime-builder.ts:188-190 | Splitting a written list, unfolded, gives one piece for each address, in order, and each arrives: read back with its name, or, beyond ASCII, shown with it by every decoder. It holds for every name but one in ASCII that is not simple and has quotes at its ends or separators outside quotes and brackets of its own |
| `AddressFields.OneRecipientExactly` | packages/mail/src/mime-builder.ts:166-186 | A name in ASCII that is not simple is not quoted: its address stays one recipient exactly if every comma or semicolon of the name is in quotes or brackets of its own |
| `Composer.ComposedExactly` | packages/mail/src/mime-builder.ts:63-65 | A message is composed exactly if it has a recipient and no name or address has a line break or NUL inside |
| `MimeParser.EntityParses` | packages/mail/src/mime-builder.ts:130-137 | The parser finds exactly the unfolded fields and the body of an entity |
| `MimeParser.PartsSplit` | packages/mail/src/mime-builder.ts:160-162 | Splitting a wrapped body at its boundary gives exactly the parts, when no line in them starts like the boundary (section 5.1.1 of RFC 2046) |
| `MimeParts.LeafKeepsClear` | packages/mail/src/mime-builder.ts:130-158 | No line of a leaf part starts like any boundary line |
| `MimeParts.WrappedKeepsClear` | packages/mail/src/mime-builder.ts:122-128 | A nested multipart keeps clear of a boundary that starts with another character |
| `MimeParts.EnvelopeIsHeaders` | packages/mail/src/mime-builder.ts:71-91 | Each pushed header unfolds to its field, and its continuation lines cannot end the header |
| `MimeParts.AddressListIsFoldable` | packages/mail/src/mime-builder.ts:170-190 | A formatted address list is one header value, whatever the names |
| `MimeRoundTrip.ParseUndoesCompose` | packages/mail/src/mime-builder.ts:62-162 | Parsing a composed message gives every field unfolded, and the part structure with every body |
| `MimeRoundTrip.ContentsSurviveExactly` | packages/mail/src/mime-builder.ts:62-162 | The parsed bodies are the text, the HTML and each attachment's bytes, in order, for all contents; a recipient that opens every multipart can open the message exactly when no attachment's type is itself a multipart (a parser that also opens `message/rfc822` meets base64 there, which section 5.2.1 of RFC 2046 forbids too) |
| `MessageFields.AddressFieldsReadBack` | packages/mail/src/mime-builder.ts:74-82 | In the parsed message there is one `From` and one `To`, and one `Cc` and `Bcc` if any were given, each arriving as the addresses that went in, in order and in any script |
| `MessageFields.OtherFieldsReadBack` | packages/mail/src/mime-builder.ts:84-96 | The subject is shown trimmed by every decoder that takes no ASCII part of it for an encoded word; date and ids are those given; `In-Reply-To` and `References` are there exactly if given, the latter with those ids in order |
| `MessageFields.BreaksBecomeOneSpace` | packages/mail/src/mime-builder.ts:199 | Each run of line breaks in a value becomes one space |
| `MessageFields.BodiesKeepTheirTypes` | packages/mail/src/mime-builder.ts:98-145 | The parsed bodies in order, each with its `Content-Type`: plain text, HTML if any, then the files |
| `MessageFields.LayoutIs` | packages/mail/src/mime-builder.ts:98-126 | Files make the message `multipart/mixed` with one part more than files; HTML beside text is `multipart/alternative`, inside it or alone |
| `MessageFields.AttachmentIsDescribed` | packages/mail/src/mime-builder.ts:148-159 | An attachment parses to its bytes with its type, its content id, and its name in both places, shown as it was by every decoder |
| `MessageFields.FilenameIsHarmless` | packages/mail/src/mime-builder.ts:282-286 | Whatever a file is called, what is written of it has no quote, backslash, semicolon, colon or line break |
| `MessageFields.NamelessIsAttachment` | packages/mail/src/mime-builder.ts:282-286 | A file whose name has nothing left is called `attachment` |
| `MessageFields.MediaTypeIsKept` | packages/mail/src/mime-builder.ts:268-273 | A type of the form `x/y` is sent as declared |
| `MessageFields.OtherTypesAreUnknown` | packages/mail/src/mime-builder.ts:268-273 | One without a slash or with a foreign character is sent as `application/octet-stream` |
| `MimeRoundTrip.AttachmentParses` | packages/mail/src/mime-builder.ts:148-158 | An attachment part parses to its fields and bytes |
| `MimeRoundTrip.AlternativePartParses` | packages/mail/src/mime-builder.ts:122-128 | The nested alternative parses, and keeps clear of the boundary around it |
| `MimeRoundTrip.MultipartTypeIsLetThrough` | packages/mail/src/mime-builder.ts:268-273 | The type check lets every `multipart/...` type through |
| `MimeRoundTrip.NormalizedType` | packages/mail/src/mime-builder.ts:270-273 | A normalised type has no line break, no semicolon and no outer space |
| `HeaderNames.ExtractsThePushedNames` | packages/mail/src/mime-builder.ts:403-410 | `extractHeaderNames` returns exactly the pushed names, in lower case and in order |
| `HeaderNames.ExtractedNamesAreAllowed` | packages/mail/src/mime-builder.ts:43-58 | All of them are in `ALLOWED_HEADERS` |
| `HeaderNames.EveryPartIsAllowed` | packages/mail/src/mime-builder.ts:43-58 | So is every field of the main part and of every attachment, whatever type it claims, and of every part a reader finds |
| `Threading.BuildReplyHeaders` | packages/mail/src/threading.ts:37-66 | The loop: the ids where they first appear, the parent last if new, trimmed |
| `Threading.FirstSeenAreDistinct` | packages/mail/src/threading.ts:46-54 | Deduplication leaves no id twice |
| `Threading.EndsWithParentExactly` | packages/mail/src/threading.ts:56-60 | The chain ends with the parent exactly when the history does not name it earlier than last |
| `Threading.TrimReferencesByLoop` | packages/mail/src/threading.ts:73-83 | The loop computes the trimmed chain |
| `Threading.TrimKeepsRootAndRecent` | packages/mail/src/threading.ts:73-83 | Trimming keeps the root and the longest suffix that fits 900 characters, or exactly six ids |
| `Threading.TrimDropsExactly` | packages/mail/src/threading.ts:73-83 | Ids are dropped exactly from more than six that take more than 900 characters |
| `Threading.TrimReferencesIsIdempotent` | packages/mail/src/threading.ts:73-83 | Trimming twice is trimming once |
| `Threading.TrimThenAppend` | packages/mail/src/threading.ts:60-83 | Trimming before a reply adds its parent changes nothing |
| `Threading.ReferencesAreTrimmedAncestors` | packages/mail/src/threading.ts:37-83 | In a conversation of any length a reply's chain is the trimmed list of all its ancestors |
| `Threading.EveryReplyIsThreaded` | packages/mail/src/threading.ts:37-83 | So it starts with the root, ends with the parent, repeats nothing and keeps the last five ancestors in order |
| `Threading.NormalizeIsIdempotentExactly` | packages/mail/src/threading.ts:124-131 | Normalising again changes nothing exactly when the inner text has no bracket at its ends |
| `Threading.SpellingsAreBracketed` | packages/mail/src/threading.ts:124-131 | A bare id and the same id in any number of brackets, with white space about, give that id in one pair of brackets |
| `Threading.NothingIsNoId` | packages/mail/src/threading.ts:124-131 | White space and brackets alone give no id |
| `Threading.ReplyNamesTheIds` | packages/mail/src/threading.ts:36-63 | However the parent's id and its references are written, the reply's chain is their bracketed ids, each once, the parent last if new, trimmed |
| `Base32.Base32Encode` | packages/crypto/src/totp.ts:156-175 | The loop with an accumulator that wraps at 32 bits computes the symbols of the bit string |
| `Base32.Base32Decode` | packages/crypto/src/totp.ts:177-201 | The loop computes the bytes of the bit string, or refuses a foreign character |
| `Base32.EncodesTheNumber` | packages/crypto/src/totp.ts:156-175 | The symbols write the number of the bytes to the base of 32 in the alphabet of RFC 4648, filled up with zeros |
| `Base32.DecodesTheNumber` | packages/crypto/src/totp.ts:177-201 | Any digits, white space and case aside, give the bytes of the number they write, what does not fill a byte dropped; any other character is refused |
| `Base32.DecodeUndoesEncode` | packages/crypto/src/totp.ts:156-201 | Every byte string comes back, from ceil(8n / 5) alphabet characters (section 6 of RFC 4648) |
| `Base32.DecodeForgives` | packages/crypto/src/totp.ts:178 | Spaces anywhere, lower case and trailing padding change nothing |
| `Base32.PaddingBeforeASpaceIsRefused` | packages/crypto/src/totp.ts:178 | A space after padding makes the padding part of the secret, and it is refused |
| `Base32.PaddingOnlyAtTheEnd` | packages/crypto/src/totp.ts:177-201 | An encoding typed with spaces, in lower case and with padding anywhere is decoded exactly when no padding is left once the trailing run is dropped, and refused otherwise |
| `Base32.ShiftKeepsThePending` | packages/crypto/src/totp.ts:162 | A shift that overflows the word loses none of the pending bits |
| `KeyCache.CacheKeyIsInjective` | packages/crypto/src/kms.ts:154 | One cache key stands for one wrapped key and version |
| `KeyCache.CachedStays` | packages/crypto/src/kms.ts:162-186 | Over any stores and clears, an entry that is neither evicted, replaced nor cleared is still there with its expiry |
| `KeyCache.DroppedWithoutSlack` | packages/crypto/src/kms.ts:173-186 | A store drops an entry exactly when it has no slack left: no free place and none ahead of it in the order of expiry |
| `KeyCache.SurvivesWithinSlack` | packages/crypto/src/kms.ts:153-186 | Without a `clear`, a buffer is intact after as many stores as its slack, whatever they store |
| `KeyCache.SurvivesExactly` | packages/crypto/src/kms.ts:153-186 | Stores of new keys that expire no earlier take the slack one by one: the buffer is intact exactly as long as they are no more than it |
| `KeyCache.SlackIsBetween` | packages/crypto/src/kms.ts:162-186 | The slack is at least the free places and at most all places but one: the soonest to expire has the former, the last to expire the latter |
| `KeyCache.HandedOutKeyIsSafe` | packages/crypto/src/kms.ts:153-171 | The key a look-up hands out is in the cache, hit or miss, and lost before use only by a `clear` or by more stores than its slack |
| `KeyLifetime.HitsAreFresh` | packages/crypto/src/kms.ts:153-171 | After any stores and clears from an empty cache, a look-up is a hit only if less than `ttl` has passed since the last store of that very key and version, with no `clear` since; and always then if the cache never had to make room |
| `KeyLifetime.StoredIsHitExactly` | packages/crypto/src/kms.ts:157-164 | The answer to a miss is a hit later exactly while less than `ttl` has passed |
| `Kms.CachingKms.UnwrapDataKey` | packages/crypto/src/kms.ts:153-165 | The answer is the inner provider's, cached or not; a hit changes nothing and a miss hands out a new buffer; with the stores and clears of other callers as an input, the entries afterwards and what became of every buffer |
| `Kms.CachingKms.AskTwice` | packages/crypto/src/kms.ts:153-165 | A key that was not cached, asked for twice with nobody between: the second answer is the first one's buffer exactly while less than `ttl` has passed |
| `Kms.CachingKms.Lookup` | packages/crypto/src/kms.ts:154-158 | A hit is an unexpired entry of that key, its buffer, and holds the inner provider's answer |
| `Kms.CachingKms.Store` | packages/crypto/src/kms.ts:162-164 | Makes room, then remembers; each other buffer stays, is replaced under its key and left alone, or is dropped and zeroed, as the order of expiry says |
| `Kms.CachingKms.Others` | packages/crypto/src/kms.ts:131-187 | Any sequence of stores and clears by others: the entries afterwards, and the fate of every buffer |
| `Kms.CachingKms.EvictOldest` | packages/crypto/src/kms.ts:173-186 | Removes and zeroes the first of the entries expiring soonest, and leaves every other one in place |
| `Kms.CachingKms.Clear` | packages/crypto/src/kms.ts:168-171 | Zeroes and drops every entry |
| `Kms.CachingKms.HeldKeyIsLost` | packages/crypto/src/kms.ts:158-165 | With a full cache of any size, a caller handed the key that expires soonest holds zeros as soon as anyone unwraps a key that is not cached |
| `Envelope.NewVersionIsNew` | packages/crypto/src/kms.ts:57-64 | A new master key gets a version above all previous ones, which keep their keys |
| `Envelope.UnpackUndoesPack` | packages/crypto/src/envelope.ts:73-97 | `iv`, tag and ciphertext are read back from the stored layout |
| `Envelope.DecryptUndoesEncrypt` | packages/crypto/src/envelope.ts:56-108 | Encryption is refused exactly without a user id or a field; decrypting gives the plaintext back, also an empty one, whenever the cipher opens the two things it sealed; the record is 28 bytes longer than the plaintext, its wrapped key 60 bytes, under the current version |
| `Envelope.RotateStillDecrypts` | packages/crypto/src/envelope.ts:125-134 | A rotated record is under the current version and decrypts to the same plaintext |
| `EnvelopeHistory.HistoryKeepsThePlaintext` | packages/crypto/src/envelope.ts:56-134 | Over any history of restarts with new master keys, rotations through the cache and other use of it, the record decrypts to what was encrypted, as long as no lost key opens it as something else |
| `EnvelopeHistory.QuickHistoryKeepsThePlaintext` | packages/crypto/src/envelope.ts:56-134 | So it does for any sound cipher if, in each rotation, fewer keys are stored between handing the key out and using it than its slack |
| `EnvelopeHistory.IdealHistoryKeepsThePlaintext` | packages/crypto/src/envelope.ts:56-134 | And for an ideal authenticated cipher always, whatever happens to the keys |
| `Envelope.AadIdentifiesTheRecord` | packages/crypto/src/envelope.ts:49-51 | For user ids without a colon the associated data identifies the record |
| `Envelope.ColonMakesThemAmbiguous` | packages/crypto/src/envelope.ts:49-51 | With a colon in a user id two records share it |
| `Envelope.AadIsItsOwnExactly` | packages/crypto/src/envelope.ts:49-51 | A record shares its associated data with no other exactly when neither its user id nor its field has a colon |
| `Envelope.PastedRecordIsRefused` | packages/crypto/src/envelope.ts:15-18 | For an ideal authenticated cipher, a record pasted into another row or field does not decrypt, whatever wrapped key is beside it |
| `Envelope.OpensOnlyAsSealed` | packages/crypto/src/envelope.ts:85-108 | A ciphertext decrypts, if at all, to what was sealed in it, and only for the associated data it was sealed with |
| `Envelope.OtherMasterOpensNothing` | packages/crypto/src/kms.ts:77-120 | For an ideal cipher, a record does not decrypt under a provider that has another master key, or none, for its version |
| `Envelope.LostKeyOpensNothingElse` | packages/crypto/src/envelope.ts:85-108 | With a key lost to the cache a record gives an error and never wrong bytes |
| `Envelope.RotationPersistsThePlaintextOrNothing` | packages/crypto/src/envelope.ts:125-134 | So a rotation persists a record with the same plaintext, or nothing |
| `Envelope.IdealCiphersExist` | packages/crypto/src/envelope.ts:73-80 | There are ideal ciphers: for any set of at most 256^16 sealings, one for each tag, also when several are of one plaintext, as after a rotation |
| `EnvelopeService.EnvelopeEncryption.Encrypt` | packages/crypto/src/envelope.ts:56-83 | The specified payload; the data key is wiped |
| `EnvelopeService.EnvelopeEncryption.Decrypt` | packages/crypto/src/envelope.ts:85-108 | The specified plaintext, or, exactly if what others do to the cache meanwhile overwrites the borrowed key, what the cipher makes of zeros; and the cache afterwards |
| `EnvelopeService.EnvelopeEncryption.Rotate` | packages/crypto/src/envelope.ts:125-134 | The specified payload for that same plaintext, and the plaintext is wiped; a record under the current version asks for no key |
| `Recipients.SplitAddresses` | packages/mail/src/recipients.ts:200-222 | The scanner cuts at exactly the separators outside quotes and brackets |
| `Recipients.SplitUndoesJoin` | packages/mail/src/recipients.ts:200-222 | Joining closed pieces with any separators and splitting gives the pieces back |
| `Recipients.EnclosedIsClosed` | packages/mail/src/recipients.ts:200-222 | A text in quotes, or in brackets, is one piece whatever separators it has inside |
| `Recipients.PiecesAndSeparatorsRebuild` | packages/mail/src/recipients.ts:200-222 | For any input the pieces and the separators cut at rebuild it |
| `RecipientList.ParseRecipientList` | packages/mail/src/recipients.ts:132-177 | The program's order of checks, its first refusal, and the recipients chosen |
| `RecipientList.AcceptedExactly` | packages/mail/src/recipients.ts:132-157 | A list is accepted exactly when it has no control character, one to `max` non-blank pieces, and every piece is accepted |
| `RecipientList.ListIsWhatWasTyped` | packages/mail/src/recipients.ts:144-177 | An accepted list has at most `max` recipients, distinct up to case, covers every non-blank piece and holds nothing else: each person as first written, in that order |
| `RecipientList.AcceptedIsSafe` | packages/mail/src/recipients.ts:68-117 | An accepted recipient is never refused by the composer, whatever was typed |
| `RecipientForms.BareAddressReads` | packages/mail/src/recipients.ts:83-117 | A valid address of at most 254 characters, with any white space around it, is a recipient without a name, the local part kept and the domain in lower case |
| `RecipientForms.BareAddressExactly` | packages/mail/src/recipients.ts:83-117 | Text without a bracket is accepted exactly when it is such an address |
| `RecipientForms.NamedAddressReads` | packages/mail/src/recipients.ts:52-117 | A name of at most 80 units in any script, with such an address in brackets, gives that name without its quotes and that address |
| `RecipientForms.QuotesAreDropped` | packages/mail/src/recipients.ts:99 | One quote at each end of a name goes, and nothing else |
| `RecipientForms.LongNameIsRefused` | packages/mail/src/recipients.ts:52 | A longer name is refused |
| `RecipientForms.BareListReads` | packages/mail/src/recipients.ts:132-177 | Addresses of different people with commas or semicolons and white space between them are accepted as they stand, or refused as too many |
| `RecipientForms.RefusalsAre` | packages/mail/src/recipients.ts:83-108 | When the reason is that nothing was typed, that there is a control character, or that the address is too long |
| `RecipientForms.LocalPartIs` | packages/mail/src/recipients.ts:48-49 | A local part is atoms with dots between them, an atom letters, digits and the listed symbols |
| `RecipientForms.DomainIs` | packages/mail/src/recipients.ts:48-49 | A domain is labels with a dot after each and a top level of two letters or more |
| `RecipientForms.LabelIs` | packages/mail/src/recipients.ts:48-49 | A label is letters, digits and hyphens with no hyphen at either end |
| `Addresses.AcceptedIsCanonical` | packages/mail/src/recipients.ts:110-117 | An accepted address is valid with its domain in lower case, and lower-casing it again changes nothing |
| `Addresses.FormattedReads` | packages/mail/src/recipients.ts:83-117 | A simple name and an accepted address, formatted as the composer does, quoted or not, are read back as they were |
| `HttpMetrics.Registry.Record` | apps/api/src/health/http-metrics.ts:154-187 | One observation: its label, its counter, its histogram |
| `HttpMetrics.Registry.BucketIndex` | apps/api/src/health/http-metrics.ts:185 | The first bound at or above the duration |
| `HttpMetrics.Registry.RouteWithinCap` | apps/api/src/health/http-metrics.ts:196-200 | The route itself while its series exists or there is room, else the overflow label |
| `HttpMetrics.CountersSumToCalls` | apps/api/src/health/http-metrics.ts:154-172 | The counters add up to the number of calls |
| `HttpMetrics.CountersCountRequests` | apps/api/src/health/http-metrics.ts:154-173 | Each counter is the number of requests with its labels |
| `HttpMetrics.HistogramCountsItsCounters` | apps/api/src/health/http-metrics.ts:154-187 | Each histogram's count is the sum of its route's counters over all statuses, and it exists when one of them does |
| `HttpMetrics.BucketsCountObservations` | apps/api/src/health/http-metrics.ts:183-236 | Each cumulative bucket is the number of its route's observations at or below the bound, never above the count |
| `HttpMetrics.BucketsCountDurations` | apps/api/src/health/http-metrics.ts:154-186 | Each cumulative bucket is the number of its route's requests that took at most its bound, a duration that is no number counting as none; the sum is the time they took, a negative one adding nothing |
| `HttpMetrics.OwnSeriesAreCapped` | apps/api/src/health/http-metrics.ts:196-200 | Series not labelled `overflow` never exceed the cap |
| `HttpMetrics.KnownRouteIsFolded` | apps/api/src/health/http-metrics.ts:189-200 | With the cap filled by one status on each of 500 routes, a second status of a counted route is folded; the comment there says it never is |
| `HttpMetrics.FoldedExactly` | apps/api/src/health/http-metrics.ts:189-200 | An observation is folded exactly when its own series is not counted yet and the cap is reached |
| `HttpMetrics.LabelsAre` | apps/api/src/health/http-metrics.ts:90-200 | The method is one of seven in any case of its letters or `other`, the status itself or 0, and the route its own exactly below the cap of 500 or if already counted |
| `HttpMetrics.KeysAreFaithful` | apps/api/src/health/http-metrics.ts:167-174 | The NUL-separated keys stand for the labels, whatever the route contains |
| `MetricsText.MethodLabelHasNoNul` | apps/api/src/health/http-metrics.ts:90-93 | A method label never has the separator in it |
| `MetricsText.RenderHistogram` | apps/api/src/health/http-metrics.ts:229-242 | The loop: cumulative rows for the bounds, then `+Inf`, sum and count |
| `MetricsText.LabelReadsBack` | apps/api/src/health/http-metrics.ts:126-128 | A scraper reads an escaped label back and goes on where it ends |
| `RateLimit.KeysAreDistinct` | apps/api/src/common/rate-limit.ts:58-62 | Distinct (scope, subject, window) never share a key |
| `RateLimit.CountIsSharedExactly` | apps/api/src/common/rate-limit.ts:58-62 | Two requests share a count exactly if they are of one scope and one minute and, except for webhooks, of one client |
| `RateLimit.ResetIsTheEndOfTheWindow` | apps/api/src/common/rate-limit.ts:65-68 | `Retry-After` is the first whole second of the next window |
| `RateLimit.RateLimiter.Consume` | apps/api/src/common/rate-limit.ts:117-153 | The decision and the new counters, also when disabled and when Redis fails |
| `RateLimit.RefusedExactly` | apps/api/src/common/rate-limit.ts:117-153 | A request is refused exactly if its scope has a positive limit, Redis answered, and the count is above it |
| `RateLimit.OnlyItsKeyCounts` | apps/api/src/common/rate-limit.ts:117-141 | A request counts one on its own key and nothing on any other, and nothing at all without a limit |
| `RateLimit.StoreHoldsTheCount` | apps/api/src/common/rate-limit.ts:127-141 | Until a window is over Redis holds exactly its count |
| `RateLimit.ExpiryOutlivesTheWindow` | apps/api/src/common/rate-limit.ts:129 | The refreshed expiry never falls inside the window |
| `RateLimit.CountIsTheStreak` | apps/api/src/common/rate-limit.ts:117-141 | However late, a request is told how many of its window were counted since a minute last went by without one, and admitted exactly when that is below N |
| `RateLimit.StreakIsAllExactly` | apps/api/src/common/rate-limit.ts:127-141 | That is all of them exactly when no minute went by between two |
| `RateLimit.LateRequestStartsAgain` | apps/api/src/common/rate-limit.ts:127-141 | A request counted a minute after the last one starts the count again and is admitted |
| `RateLimit.FirstOnesAreAdmitted` | apps/api/src/common/rate-limit.ts:117-141 | A request is told how many of its window came before exactly when no minute went by between two of them; then it is admitted exactly when they are fewer than N |
| `RateLimit.WindowAdmitsExactly` | apps/api/src/common/rate-limit.ts:117-141 | Of the requests of a window, late ones included, exactly the first N are admitted, as long as no minute goes by between two |
| `RateLimit.AnyMinuteAdmitsTwiceTheLimit` | apps/api/src/common/rate-limit.ts:16-21 | Any sixty seconds admit at most 2N if every request is counted in the window in which it read the clock |
| `RateLimit.EachKeyAdmitsTheLimit` | apps/api/src/common/rate-limit.ts:117-141 | In any sixty seconds the requests of one window, late ones included, are admitted at most N times |
| `RateLimit.AnyMinuteIsBounded` | apps/api/src/common/rate-limit.ts:16-21 | So any sixty seconds admit at most N times the number of windows their requests can belong to |
| `RateLimit.AnyMinuteAdmitsThriceTheLimit` | apps/api/src/common/rate-limit.ts:16-21 | At most 3N if none is counted more than a minute after it read the clock |
| `RateLimit.ThriceTheLimitIsMet` | apps/api/src/common/rate-limit.ts:16-21 | A run with no request a minute late in which 3N are admitted within sixty seconds, so that 2N does not hold then |
| `RateLimit.LastHopCounts` | apps/api/src/common/rate-limit.ts:83-98 | The last hop of the header is the client's address, whatever stands before it |
| `RateLimit.SocketCountsWithoutHops` | apps/api/src/common/rate-limit.ts:83-98 | Without a hop in the header it is the socket's address, or `unknown` |
| `Digest.IsDigestDue` | apps/worker/src/services/digest-schedule.ts:32-61 | The loop: due exactly when some well-formed time has passed and is not covered |
| `Digest.EveryTimeParses` | apps/worker/src/services/digest-schedule.ts:146-155 | Every minute of the day can be asked for |
| `Digest.TimeReadsExactly` | apps/worker/src/services/digest-schedule.ts:146-155 | A time is read exactly if, trimmed, it is an hour below 24 in one or two digits, a colon and a minute below 60 in two; and as what |
| `Digest.OneDigestForEachTime` | apps/worker/src/processors/sync.processor.ts:325-349 | Over any run of sweeps on dates that go on, at most one digest a local day for each distinct well-formed time, wherever the minute jumps, if no digest is noted before a scheduled time that had passed when it was found due |
| `Digest.PassedTimesAreCovered` | apps/worker/src/services/digest-schedule.ts:47-58 | After a sweep whose digest, if due, was noted, a time already passed that day is covered exactly unless the digest was noted before that time |
| `Digest.DueAgainExactly` | apps/worker/src/services/digest-schedule.ts:47-58 | A second sweep at the same reading is due again exactly when the first digest was noted before a time that had passed |
| `Digest.SetBackSendsTwice` | apps/worker/src/repositories/message.repository.ts:329-336 | If the clock is set back between finding a digest due and noting it, one time sends two |

## Left out

- Sessions: `listActive`, the access-token cut-off of `revokeAll`, audit entries and the deletion of rows with their user are not modelled; a user's row-level scope is a condition on the user.
- Sending: what is sent (attachment collection, the wording of replies, reauthorisation marks) and the provider's own use of the idempotency key.
- Staging: the download of a file, its name and type, and the messages to the user; the expiry of rows is a comparison with the clock, as in the queries.
- Ingest: deletions and label changes, sealing of bodies, participants and content hashes, and the adapters' paging. That any conflict error counts as an expired history (`packages/mail/src/providers/gmail-errors.ts:149-155`) is why the model lets a handler resynchronise from anywhere in its walk. The other writers of the cursor: the watch job, which fills an empty one in (`apps/worker/src/repositories/watch.repository.ts:126`), and relinking an account, which sets it to the position now (`apps/api/src/oauth/account-linking.service.ts:283`).
- Composer: `formatRfc2822Date` (the date is a string without a line break), generated message ids and tokens, `toGmailRaw` and the quoting of originals.
- Headers.FoldingUnfolds: the width is stated for lists without an id that equals the header's name and colon; such an id may or may not overrun, depending on the ids around it (`Headers.IdLikeTheNameOverruns`).
- MimeRoundTrip.ParseUndoesCompose: references are ids without white space; an id with a space inside would be folded as two.
- Threading: the subject prefixes (regular expressions over several languages), `parseReferences`, `generateMessageId` and `resolveReplyRecipients`.
- Base32: letters outside ASCII that the host language's upper-casing turns into ASCII letters; here they are refused. The one-time codes themselves.
- Kms.CachingKms.UnwrapDataKey: durations are integers, so an unbounded lifetime, with which nothing is ever evicted, is outside the model.
- EnvelopeService.EnvelopeEncryption.Decrypt: with a dropped key and a cipher that is merely sound the outcome is whatever the cipher makes of zeros.
- Envelope: that AES-256-GCM comes close to an ideal cipher is not part of this model.
- Recipients: `looksLikeAddress` and the wording of refusals; case mapping is the ASCII part.
- HttpMetrics: floating-point rounding of the sum, the order of the rendered series, the help lines, and how a request's route template is found.
- RateLimit: Redis itself beyond one counter with an expiry.
- Digest: the time-zone library, the batching of users, digest jobs that fail before the digest is noted, and `startOfLocalDay`.
- HTTP controllers, guards, the web interface, AI processors, command parsing, reminders, search and the job metrics: no property of the kind above.
