# GuestFlow: a verified model

GuestFlow is a multi-tenant back end for events: guests, invitations, messages, check-in, billing.
This project models the parts of it that carry real obligations, one module per component, and
proves them for all inputs, all runs and, where the code is concurrent, all interleavings.

How the model is built:

* Tables and Redis or in-memory maps are sequences and maps with the guards of the statements
  that update them. A row's id is its position or map key; new ids are unused ones.
* Code that changes things is a class whose methods are proved equal to a function of the old
  state. The theorems are about those functions, over whole runs (`Run`) of a datatype of actions.
* Protocols that rely on row locks, advisory locks, conditional updates or a mutex (refresh tokens,
  email tokens, reminder claims, message delivery, the issue relay, the permission cache) are machines whose actions are
  single statements of any number of calls in flight; an action that is not enabled changes nothing.
  Everything else runs call by call, because the code there checks and then acts without a lock.
* Clocks, provider answers, lookups and write failures are inputs.

Where a wanted property is false of the code, a lemma gives the input or the exact condition:

* Rendering composes only for values that cannot become part of a placeholder; the exact condition
  is proved and can be checked on the value (`Template.SealedCanBeChecked`).
* The source ignores a failed `ExpireAllActive`; a later successful insert then leaves a tenant with
  two active subscriptions (`Billing.StepKeepsOneActive` is the exact condition).
* A subscription created but not recorded on its payment is created again by a redelivery.
* `InvalidateUser` is meant to make a permission change take effect immediately. It does unless a
  check that read the old role before the change caches it afterwards
  (`Rbac.InvalidationTakesEffect` is the exact condition).
* At the end of a trial the read path stores `suspended` and the sweep `trial_expired`
  (`Billing.ReadAgreesWithSweep` is exact about this).
* A guest deleted after check-in counts as checked in but not as expected, so the no-show figure is
  too low unless nobody stayed away (`Checkin.NoShowsAreTheAbsent` is the exact condition).
* A message that was read can go back to delivered: an acknowledgement writes all columns as it read
  them earlier (`Delivery.StatusMovesForwardUnlessOvertaken` is the exact condition).
* A profile edit writes the whole account back and can take a verification away
  (`EmailTokens.OnlyStaleEditsUnverify`), and two concurrent issuing transactions can leave two
  unused tokens (`EmailTokens.StepKeepsOneUnused`).
* Guest creation and update go on when a duplicate lookup fails, and can then write a taken contact
  (`GuestImport.DistinctUnlessBlind`).
* Requests that repeat a request id within a millisecond are counted once by the rate limiter
  (`RateLimit.DistinctBound`, `RateLimit.RepeatedRequestsAllPass`).
* The import bounds phone numbers at 15 characters including the plus sign, so at 14 digits,
  one less than E.164 allows; the model follows the code.

## Model

| member | source | states |
|---|---|---|
| `Template.OccurrencesDoNotOverlap` | internal/service/communication_service.go:349-364 | Two occurrences of a placeholder in a body are the same one or one ends before the other begins. |
| `Template.RenderReplacesExactlyAllOccurrences` | internal/service/communication_service.go:349-364 | The left-to-right scan equals simultaneous replacement of the holes, for every way of cutting the body whose holes are exactly the occurrences; inserted text is never scanned. |
| `Template.EveryBodyHasAnExactCut` | internal/service/communication_service.go:349-364 | Every body has such a cut, so the previous statement is about every body. |
| `Template.NamedPlaceholderIsReplaced` | internal/service/communication_service.go:349-364 | Double braces around letters, digits and underscores are replaced by the value of that name, and left alone without one. |
| `Template.OtherBracedTextIsKept` | internal/service/communication_service.go:349-364 | Double braces around any other brace-free text, the empty one included, are left alone. |
| `Template.RenderComposes` | internal/service/communication_service.go:349-364 | If no placeholder can overlap any value of the first map wherever the value is put, rendering with the first map and then the second equals rendering once with the first taking precedence, for every body. |
| `Template.CompositionIsExactlySealing` | internal/service/communication_service.go:349-364 | The condition is exact: rendering composes for all bodies and all second maps if and only if every value a placeholder can be replaced by is so sealed. |
| `Template.UnsealedBreaks` | internal/service/communication_service.go:349-364 | For any value that is not sealed there are a body and a second map on which composition fails. |
| `Template.SealedCanBeChecked` | internal/service/communication_service.go:349-364 | A value is sealed if and only if it holds no placeholder, begins like the end of none, ends like the beginning of none and is the inside of none. |
| `Template.BraceFreeIsSealed` | internal/service/communication_service.go:349-364 | In particular brace-free values with a non-word character are sealed. |
| `Template.RenderIsIdempotent` | internal/service/communication_service.go:349-364 | With sealed values, rendering a rendered body with the same map changes nothing. |
| `Template.CompositionFailsForWordValue` | internal/service/communication_service.go:349-364 | A concrete failure: a value of word characters completes a placeholder of the body. |
| `Template.CompositionFailsForBracedValue` | internal/service/communication_service.go:349-364 | A concrete failure: a value with braces brings its own placeholder. |
| `RateLimit.EffectiveLimit` | internal/middleware/ratelimit.go:70-97 | With the defaults of rate, window and burst filled in, the limit is the whole part of rate times window, or the burst when that product is below one. |
| `RateLimit.Limiter.Check` | internal/middleware/ratelimit.go:138-170 | The in-place pipeline (trim, count, add, expire) refines the log: it answers what the log says and leaves the store of the longer log; when Redis cannot be reached the request passes and nothing is stored. |
| `RateLimit.StoreIsTheLastWindow` | internal/middleware/ratelimit.go:138-170 | After any run with a non-decreasing clock, request ids repeated or not, the stored members are exactly those of the requests in the last window, denied ones included, with their times. |
| `RateLimit.TrimmedIsTheWindow` | internal/middleware/ratelimit.go:138-170 | What a new request finds is the logged requests of its window, whether or not the key had expired. |
| `RateLimit.AllowedMeansFewerThanLimit` | internal/middleware/ratelimit.go:138-170 | A request is let through if and only if fewer than the limit different members were logged in the window before it. |
| `RateLimit.ExpiryNeverChangesADecision` | internal/middleware/ratelimit.go:138-170 | Two logs that differ only in when the expired key was dropped get the same decisions. |
| `RateLimit.MembersTellTheTime` | internal/middleware/ratelimit.go:154 | Equal member strings come from the same time and the same request id. |
| `RateLimit.DistinctBound` | internal/middleware/ratelimit.go:138-170 | In every run, every interval of window length holds at most the limit of different allowed members. |
| `RateLimit.WindowBound` | internal/middleware/ratelimit.go:138-170 | So when no two requests share both millisecond and request id, every interval of window length holds at most the limit of allowed requests. |
| `RateLimit.RepeatedRequestsAllPass` | internal/middleware/ratelimit.go:154 | Any number of requests that do share both all pass, for every limit above one. |
| `RefreshTokens.RefreshTokenService.Create` | internal/auth/refresh.go:48-80 | Appends one unrevoked row of the user with the given parent and a life of 604800 seconds, and changes no other. |
| `RefreshTokens.RefreshTokenService.Validate` | internal/auth/refresh.go:83-112 | Succeeds with the owner exactly on an existing, unrevoked, unexpired token, and otherwise says which of these is missing. |
| `RefreshTokens.RefreshTokenService.Revoke` | internal/auth/refresh.go:115-139 | Sets the mark of an unrevoked row and reports failure exactly when no row changed, a failed statement included. |
| `RefreshTokens.RefreshTokenService.RevokeAllUserTokens` | internal/auth/refresh.go:142-156 | Afterwards the user has no revocable token; exactly the unrevoked ones of the user are marked with the time and the user, and every other row is as before. |
| `RefreshTokens.RefreshTokenService.Refresh` | internal/service/auth_service.go:509-543 | A renewal succeeds exactly on a valid token whose revoke and insert both execute, and is then the three round trips of the interleaved machine; a failed insert leaves the old token revoked, any other failure changes nothing. |
| `RefreshTokens.StepKeepsInv` | internal/service/auth_service.go:509-543 | Every round trip of every call keeps: parents revoked, one successor, and one owner for a successor still to come. |
| `RefreshTokens.EveryTokenHasAtMostOneSuccessor` | internal/service/auth_service.go:509-543 | In every interleaving of renewals, logouts and revoke-alls, no token has two successors. |
| `RefreshTokens.EarlierTokenHasSuccessor` | internal/service/auth_service.go:509-543 | Of two tokens of one session the earlier one has been renewed. |
| `RefreshTokens.SessionHasAtMostOneLiveToken` | internal/service/auth_service.go:509-543 | In every interleaving a session chain holds at most one unrevoked token. |
| `RefreshTokens.RevocationIsNeverRewritten` | internal/auth/refresh.go:115-156 | Once set, revoked_at and revoked_by stay as they are in every continuation. |
| `EmailTokens.InvalidateActive` | internal/repository/auth_email_token_repository.go:25-35 | Marks exactly the unused tokens of the user and purpose, leaving every other row as it was. |
| `EmailTokens.EmailTokenRepository.CreateToken` | internal/service/auth_service.go:436-456 | With nothing in between, exactly the user's unused tokens of the purpose are marked, the new one ends after its lifetime and is the only unused one, and the call is the three statements of the interleaved machine. |
| `EmailTokens.EmailTokenRepository.Consume` | internal/repository/auth_email_token_repository.go:50-81 | Succeeds exactly on an unused, unexpired token of the purpose, and then changes only its mark; it is a run of the locked transaction. |
| `EmailTokens.StepKeepsInv` | internal/repository/auth_email_token_repository.go:25-81 | Every statement of every issuing and consuming transaction and every account write keeps the row-lock discipline, the history of consumptions and the account ledger. |
| `EmailTokens.EveryTokenIsConsumedAtMostOnce` | internal/repository/auth_email_token_repository.go:50-81 | In every interleaving of Consume calls each token is consumed at most once, and only before it expires. |
| `EmailTokens.AtMostOneUnusedToken` | internal/repository/auth_email_token_repository.go:25-48 | In every interleaving in which no issuing transaction misses a token committed after it looked, a user has at most one unused token of a purpose. |
| `EmailTokens.StepKeepsOneUnused` | internal/repository/auth_email_token_repository.go:25-48 | The condition is exact: a statement leaves two unused tokens if and only if it inserts one after missing another. |
| `EmailTokens.SerialIssueMissesNothing` | internal/service/auth_service.go:436-456 | An issuing transaction that nothing interrupts misses nothing. |
| `EmailTokens.ConcurrentIssuesLeaveTwo` | internal/service/auth_service.go:436-456 | Two transactions that both look before either inserts leave two unused tokens: a run. |
| `EmailTokens.VerifiedExactlyByMarks` | internal/repository/email_verification_repository.go:51-94 | In every interleaving an account is verified if and only if a verification token of it was consumed while it was not deleted, or an owner added it, and no profile edit has overwritten the last of these marks. |
| `EmailTokens.OnlyStaleEditsUnverify` | internal/service/auth_service.go:556-590 | A step takes a verification back if and only if it is the write of a profile edit, on an account that is not deleted, that had read the account unverified. |
| `EmailTokens.VerifiedExactlyByConsumption` | internal/repository/email_verification_repository.go:73-91 | In every run without such an edit, an account is verified if and only if a token of it was consumed while it was not deleted or an owner added it. |
| `EmailTokens.VerificationIsLostToAProfileEdit` | internal/service/auth_service.go:556-590 | A run in which a consumed verification is taken back by a profile edit in flight. |
| `Delivery.StepKeepsInv` | internal/service/communication_service.go:638-675 | Every statement of every dispatcher and acknowledgement keeps the column shape of each status, and what an acknowledgement in flight has read still matches the sending half of its row. |
| `Delivery.RowsEndure` | internal/handler/gowa_webhook_handler.go:76-99 | In every interleaving a failed row never changes, a sent one keeps what its dispatcher wrote, a delivered one stays delivered or read, and nothing but a read row ever goes back, to delivered. |
| `Delivery.AckedMessagesWereSent` | internal/service/communication_service.go:638-675 | In every interleaving no acknowledgement lands before the sent write, and a row is read exactly when it has its read time, with its sent and delivery times. |
| `Delivery.SendingIsRecordedForGood` | internal/service/communication_service.go:658-675 | The time and provider id a dispatcher records stay on the row in every continuation, which is then sent, delivered or read. |
| `Delivery.FailureIsRecordedForGood` | internal/service/communication_service.go:641-656 | A recorded failure keeps its time and the row never changes again. |
| `Delivery.ReceiptsAheadAreActedOn` | internal/handler/gowa_webhook_handler.go:76-85 | A receipt is acted on exactly when its row is sent, or delivered and the receipt is for reading. |
| `Delivery.ReceiptIsStored` | internal/handler/gowa_webhook_handler.go:87-99 | A receipt that finds its row undisturbed stores its status, its time in a column not set yet, and nothing else. |
| `Delivery.OnlyOvertakenWritesGoBack` | internal/handler/gowa_webhook_handler.go:76-99 | A statement takes a row back if and only if it writes a delivery receipt over a row that has become read since it was looked up, and then the read time is lost. |
| `Delivery.StatusMovesForwardUnlessOvertaken` | internal/handler/gowa_webhook_handler.go:76-99 | In every interleaving a row moves forward along queued, sent, delivered, read at every step if and only if no write on it is so overtaken. |
| `Delivery.StatusOnlyMovesForward` | internal/repository/communication_repository.go:530-562 | And then read and failed are final from the first state to the last. |
| `Delivery.ReadIsLostToALateDelivery` | internal/handler/gowa_webhook_handler.go:76-99 | A run in which a read message goes back to delivered. |
| `Delivery.UndisturbedWritesKeepTimestamps` | internal/handler/gowa_webhook_handler.go:76-99 | A write that finds the row as it was looked up also keeps every timestamp already set. |
| `Delivery.FindByExternalId` | internal/repository/communication_repository.go:530-562 | The lookup returns a newest row with the provider id exactly when there is one. |
| `Delivery.AckHandler.Handle` | internal/handler/gowa_webhook_handler.go:58-103 | The loop applies the ids in order up to the first one whose lookup or update fails, and on success counts exactly those that moved a row. |
| `Delivery.AckOneIsTwoSteps` | internal/handler/gowa_webhook_handler.go:72-99 | Each id the handler applies undisturbed is the lookup and the write of the interleaved machine in a row. |
| `Delivery.IdsAreTrimmed` | internal/handler/gowa_webhook_handler.go:72-75 | Space around an id does not matter and a blank id does nothing. |
| `Delivery.RedeliveryChangesNothing` | internal/handler/gowa_webhook_handler.go:58-103 | Delivering an acknowledgement again, with any timestamp, changes no row and reports no update. |
| `Reminders.MailThrottlesNothingNew` | internal/repository/communication_repository.go:451-508 | Because failed is terminal, message delivery never makes a row throttle again. |
| `Reminders.CommitKeepsInv` | internal/repository/communication_repository.go:451-508 | The advisory lock keeps a cleared check valid until its insert commits. |
| `Reminders.ThrottledExactly` | internal/repository/communication_repository.go:464-485 | A claim is throttled exactly when it is not forced and a reminder of its guest that neither failed nor was cancelled is at most 24 hours old. |
| `Reminders.RemindersAreADayApart` | internal/repository/communication_repository.go:451-508 | In every interleaving, of two reminders to a guest whose earlier one is live and whose later one was not forced, the later transaction started more than 24 hours after the earlier row's created_at. |
| `Reminders.EveryReminderHasAClaim` | internal/repository/communication_repository.go:451-508 | Every message row has its claim, so the spacing is about all rows. |
| `ReminderBatch.FilterCandidates` | internal/service/communication_service.go:879-924 | The loops over requested, known and candidate lists yield the eligible candidates and the skipped guests, strangers as often as listed. |
| `ReminderBatch.EligibilityIsExact` | internal/service/communication_service.go:879-924 | Eligible are exactly the candidates asked for, not reminded in the last 24 hours unless forced, and with a WhatsApp number or a non-blank email on those channels. |
| `ReminderBatch.SkipReasonsAreExact` | internal/service/communication_service.go:879-924 | A guest is skipped as recently reminded, without number, without email or as no candidate exactly under the condition of that reason. |
| `ReminderBatch.FilterSplitsTheRequested` | internal/service/communication_service.go:879-924 | As multisets, eligible plus skipped candidates are the requested candidates. |
| `ReminderBatch.EligibleKeepsOrder` | internal/service/communication_service.go:879-924 | Eligible guests are an order-preserving subsequence of the candidates. |
| `ReminderBatch.RemindOne` | internal/service/communication_service.go:795-857 | One candidate is sent exactly one stored message with exactly one provider call, or skipped with nothing stored or sent, or ends the batch. |
| `ReminderBatch.FatesAreExact` | internal/service/communication_service.go:795-857 | An eligible candidate is skipped for a missing contact, a missing invitation or a throttled claim, ends the batch, or is sent the guest's rendering, each exactly when it should. |
| `ReminderBatch.SendReminders` | internal/service/communication_service.go:734-861 | The batch succeeds if and only if the template is an active follow-up for WhatsApp or email and nothing is eligible, or WhatsApp is ready and no storage step fails; then it added exactly its messages, called the provider once for each in order, and lists every skip; every refusal changes nothing. |
| `ReminderBatch.SendingSplitsTheEligible` | internal/service/communication_service.go:795-857 | As multisets, messages plus skips of the loop are the eligible candidates. |
| `ReminderBatch.BatchAccountsForEveryTarget` | internal/service/communication_service.go:780-864 | As multisets, messages plus skipped are the requested candidates plus the listed non-candidates with repetition. |
| `ReminderBatch.BatchCountsAddUp` | internal/service/communication_service.go:780-864 | The counts of messages and skipped add up to the number of targets. |
| `ReminderBatch.RemindersKeepOrder` | internal/service/communication_service.go:795-857 | Messages go out in the order of the candidate list. |
| `ReminderBatch.NobodyIsInBothLists` | internal/service/communication_service.go:780-864 | With distinct candidates no guest is both sent a reminder and skipped. |
| `Messaging.WhatsAppNumberIsIdempotent` | internal/whatsapp/client.go:81-95 | A number in WhatsApp form is its own WhatsApp form. |
| `Messaging.WhatsAppNumberIsExact` | internal/whatsapp/client.go:81-95 | A text has the number n exactly when n is 10 to 15 digits starting with 62 and the text's digits are n, or n with a zero for the 62. |
| `Messaging.ImportedNumbersAreSendable` | internal/whatsapp/client.go:81-95 | A 62 number of 10 to 15 digits stored with a plus sign is sent to as that number. |
| `Messaging.MessageService.Dispatch` | internal/service/communication_service.go:638-675 | One provider call, then the row holds the provider's answer, or is left queued when the write fails. |
| `Messaging.MessageService.ValidateBatch` | internal/service/communication_service.go:444-467 | The batch passes if and only if every listed guest is on the roster, exists and has a WhatsApp number. |
| `Messaging.MessageService.SendOne` | internal/service/communication_service.go:469-555 | A guest's message is stored queued, dispatched and finished; a row is left behind exactly when it was created. |
| `Messaging.MessageService.SendMessage` | internal/service/communication_service.go:421-558 | A refused batch stores nothing and calls no provider; otherwise rows and calls are those of the guests up to the first storage failure, in order, and the call succeeds if and only if there is none. |
| `Messaging.AcceptedBatchIsComplete` | internal/service/communication_service.go:421-558 | Without storage failures an accepted WhatsApp batch adds one row per listed guest in order, sent or failed as the provider answered, with one call each. |
| `Messaging.EveryCallHasARow` | internal/service/communication_service.go:421-558 | Whatever fails, every provider call has a stored row of the same guest and body. |
| `Messaging.CallsGoToTheGuests` | internal/service/communication_service.go:532-550 | Every call of a batch goes out on its channel, on WhatsApp to the guest's phone column and by email to the trimmed email column, with the template rendered for the guest, overrides first. |
| `Messaging.ValidatedCallsAreSendable` | internal/service/communication_service.go:444-467 | In a WhatsApp batch that passed validation every call goes to a phone with a WhatsApp number. |
| `Messaging.RetryGoesToTheGuest` | internal/service/communication_service.go:608-628 | A retry goes out on the original's channel to the guest's present address with the original's body. |
| `Messaging.FinishedRowSaysWhatHappened` | internal/service/communication_service.go:638-675 | A finished row has the job's event, guest, channel and time and the guest's rendering; an accepted message is sent with the provider's time and, on WhatsApp, its id; a refused one is failed with its time. |
| `Messaging.MessageService.RetryMessage` | internal/service/communication_service.go:562-633 | Succeeds exactly on a failed message of the event whose guest is still there, on a usable channel, with both writes stored; the original row stays and one row with its body and guest is added. |
| `GithubRelay.Relay.IsDuplicate` | internal/handler/github_issue_notification_handler.go:121-135 | Evicts exactly the entries older than 24 hours and claims the id if it is then free. |
| `GithubRelay.Relay.ReleaseDelivery` | internal/handler/github_issue_notification_handler.go:137-141 | Removes exactly the id. |
| `GithubRelay.Relay.Handle` | internal/handler/github_issue_notification_handler.go:95-119 | A delivery is turned away, or relayed with exact sent and failed counts, and its claim is given back exactly when every send failed. |
| `GithubRelay.StepKeepsInv` | internal/handler/github_issue_notification_handler.go:95-141 | Every step of every handler keeps: current claims are stored, one per id, and every stored id has an owner. |
| `GithubRelay.AtMostOneRelayPerDelivery` | internal/handler/github_issue_notification_handler.go:95-141 | In every interleaving of handlers that finish within 24 hours of the time they read, at most one per id with a claim of the last 24 hours is in flight or has reached a recipient. |
| `GithubRelay.TurnedAwayByAClaim` | internal/handler/github_issue_notification_handler.go:95-141 | A request is turned away only by another handler that is in flight or got through, and by every such current one. |
| `GithubRelay.FailedDeliveryIsAdmittedAgain` | internal/handler/github_issue_notification_handler.go:95-141 | In every run a request is admitted when every other request for its id was turned away or failed to reach anyone. |
| `PhoneNumbers.NormalizeImportPhone` | internal/service/import_service.go:321-350 | The builder loop computes the normal form. |
| `PhoneNumbers.IsValidE164` | internal/service/import_service.go:452-466 | Valid means 8 to 15 characters, a plus sign and then digits only. |
| `PhoneNumbers.NormalizedShape` | internal/service/import_service.go:321-350 | For any input with a digit the output is a plus sign and digits, so validity is a matter of length; without a digit it is the trimmed input and invalid. |
| `PhoneNumbers.NormalizeIsIdempotent` | internal/service/import_service.go:321-350 | Normalising twice is normalising once. |
| `PhoneNumbers.IndonesianSpellingsAgree` | internal/service/import_service.go:321-350 | An input normalises to +62d (d not starting with 0) if and only if its digits spell 0d, 62d, +62d or 0062d, with any separators. |
| `PhoneNumbers.PrefixesAreExact` | internal/service/import_service.go:337-349 | Over digits, a plus sign keeps the number, a double zero stands for it, a single zero for +62, and none for a plus sign. |
| `PhoneNumbers.SeparatorsDoNotMatter` | internal/service/import_service.go:327-333 | Inputs with the same digits that agree on a leading plus sign normalise alike. |
| `Slugs.SlugifyRegistrationValue` | internal/service/auth_service.go:203-219 | The builder loop with its dash flag yields the lower-case alphanumeric runs joined by single dashes. |
| `Slugs.SlugIsIdempotent` | internal/service/auth_service.go:203-219 | A slug is alphanumeric runs joined by single dashes, and slugging it again changes nothing. |
| `Slugs.SlugKeepsTheLetters` | internal/service/auth_service.go:203-219 | A slug has exactly the letters and digits of the name, in lower case and in order. |
| `Guests.GuestService.FindByPhoneOrEmail` | internal/repository/guest_repository.go:360-399 | Returns some live guest of the tenant with the phone or email, or none exactly when there is none. |
| `Guests.GuestService.Create` | internal/service/guest_service.go:56-102 | Unless the quota is reached or a lookup that succeeds finds its phone or email taken, inserts a live guest of the tenant whose name, phone and email are the trimmed ones, an empty contact absent. |
| `Guests.GuestService.Update` | internal/service/guest_service.go:142-190 | Unless a lookup that succeeds finds a changed contact taken, updates a visible guest: contacts as requested, an empty one cleared; name and type as requested, an empty one kept. |
| `Guests.GuestService.Delete` | internal/service/guest_service.go:193-204 | Soft-deletes exactly a visible guest. |
| `Guests.GuestService.BulkCreate` | internal/repository/guest_repository.go:251-296 | The insert loop adds all guests under consecutive new ids. |
| `Guests.CreateKeepsInv` | internal/service/guest_service.go:56-102 | Creation keeps phones and emails of live guests of a tenant pairwise distinct if and only if it does not insert after the failed lookup of a taken contact. |
| `Guests.UpdateKeepsInv` | internal/service/guest_service.go:142-190 | Update keeps them pairwise distinct if and only if it does not write after the failed lookup of a taken contact. |
| `Guests.InsertAllKeepsInv` | internal/repository/guest_repository.go:251-296 | Bulk insertion keeps them distinct when the new guests clash with no row and with none of each other. |
| `Guests.LookupIsExact` | internal/repository/guest_repository.go:360-399 | With distinct contacts the LIMIT 1 lookup returns the only match. |
| `GuestImport.ParseRows` | internal/service/import_service.go:87-116 | The loop yields the rows of the lines, which the lemmas below describe. |
| `GuestImport.ValidateRows` | internal/service/import_service.go:118-131 | Every row's errors become its validation problems; rows without any become candidates, and the others are counted and listed. |
| `GuestImport.CheckDuplicates` | internal/repository/guest_repository.go:299-357 | The map has, for every asked phone and email that is taken and for no other, a live guest that has it. |
| `GuestImport.MarkDuplicates` | internal/service/import_service.go:150-199 | Candidates whose contact is taken become errors or, in the event mode with exactly one owner, that owner; the rest remain, in order, and everybody is counted. |
| `GuestImport.ReportDuplicate` | internal/service/import_service.go:182-192 | The error goes to the first row that matches the candidate, which always exists and is the candidate's own exactly when no earlier row matches. |
| `GuestImport.DropRepeats` | internal/service/import_service.go:201-223 | Keeps exactly the candidates that share no phone or email with an earlier one of the file. |
| `GuestImport.PlanImport` | internal/service/import_service.go:87-223 | Parsing, validation, the table check and the file check account for every row; reused guests are live and, with distinct contacts, the single owners. |
| `GuestImport.ImportCSV` | internal/service/import_service.go:60-243 | A bad header, a failed duplicate query and a failed insert write nothing; otherwise the table is the one the import step gives, total rows are successes plus errors plus in-file repeats, listed errors and imported ids match their counts, and new ids come first, then the reused guests. |
| `GuestImport.ImportKeepsInv` | internal/service/import_service.go:133-230 | An import keeps phones and emails of live guests pairwise distinct. |
| `GuestImport.ContactsIdentifyGuests` | internal/service/guest_service.go:56-204 | In every run of create, update, delete and import without a write after the failed lookup of a taken contact, two live guests of a tenant that share a phone or an email are the same guest. |
| `GuestImport.DistinctUnlessBlind` | internal/service/guest_service.go:56-204 | The condition is exact: contacts are distinct in every state of a run if and only if none of its calls writes so. |
| `GuestImport.AnsweredIsNeverBlind` | internal/service/guest_service.go:56-204 | When all lookups succeed no call does. |
| `GuestImport.MalformedLineIsNeverImported` | internal/service/import_service.go:91-131 | No guest is inserted from a line that failed to parse. |
| `GuestImport.CandidatesComeFromParsedLines` | internal/service/import_service.go:91-131 | Every candidate, inserted, reused, reported or dropped, is made of the cells of a line that parsed, although validation overwrites parse errors. |
| `GuestImport.ReusedComeFromParsedLines` | internal/service/import_service.go:150-180 | A guest reused in the event mode owns a contact of such a line. |
| `ImportedLines.LineHasARow` | internal/service/import_service.go:91-116 | A line makes a row if and only if it is malformed or has a cell that is not blank. |
| `ImportedLines.CandidatesHaveTheLinesColumns` | internal/service/import_service.go:289-319 | Every candidate has the columns of a line that parsed: name, phone, email and type are the trimmed cells of the first of their header names that the header has and the record reaches, the phone normalised, the type canonical, an empty contact absent. |
| `ImportedLines.InsertedGuestsHaveTheLinesColumns` | internal/service/import_service.go:289-319 | So has every guest an import inserts. |
| `ImportedLines.LineYieldsACandidate` | internal/service/import_service.go:118-131 | A line becomes a candidate if and only if it parsed and its cells meet the name, email, phone and type rules, and then exactly one. |
| `ImportedLines.ProblemsAreExact` | internal/service/import_service.go:374-402 | Each problem is reported exactly under its condition. |
| `ImportedLines.EmailHasItsParts` | internal/service/import_service.go:441-449 | An address is valid if and only if it has at most 254 characters and is a local part, an at sign, a domain, a dot and two or more letters, over the allowed characters. |
| `ImportedLines.CanonicalType` | internal/service/import_service.go:352-371 | The type is the lower-case cell with its synonyms replaced. |
| `EventRoster.EventGuestService.Lookup` | internal/repository/event_guest_repository.go:53-64 | Finds a guest exactly when a live entry, cancelled or not, exists. |
| `EventRoster.EventGuestService.MergeImported` | internal/service/event_guest_service.go:91-111 | The loop adds, in order, an active entry for one person for the first mention of each guest not yet on the roster, up to the first one whose lookup or insert fails, and changes no entry. |
| `EventRoster.EventGuestService.ImportCSV` | internal/service/event_guest_service.go:83-112 | A failed import changes nothing; otherwise the guests are created and the roster merged with their ids up to the first failure, which makes the call an error. |
| `EventRoster.MergeAddsExactlyTheImported` | internal/service/event_guest_service.go:91-111 | After a merge a guest is on a roster if and only if it was before or was imported for that event. |
| `EventRoster.MergeKeepsUnique` | internal/service/event_guest_service.go:91-111 | A merge keeps every guest at most once on the roster of an event. |
| `EventRoster.UniqueMeans` | migrations/022_event_guests.up.sql:23-24 | At most once means no two undeleted entries of one guest for an event, cancelled ones included. |
| `EventRoster.MergeIsIdempotent` | internal/service/event_guest_service.go:91-111 | Merging any part or order of merged ids again changes nothing. |
| `Billing.LatestActive` | internal/repository/billing_repository.go:121-141 | Finds an active subscription of the tenant created no earlier than any other, exactly when there is one. |
| `Billing.BillingService.Checkout` | internal/service/billing_service.go:160-219 | Succeeds exactly for a known plan of that cycle, a known user and an accepted transaction; then it records a pending payment under a new order id, or loses the record. |
| `Billing.BillingService.HandleWebhookNotification` | internal/service/billing_service.go:222-273 | Unauthentic and unknown orders are errors, a paid order is acknowledged unchanged, and the rest is the notification step, for every combination of failing writes. |
| `Billing.BillingService.ActivateSubscription` | internal/service/billing_service.go:276-332 | Expires, creates, records and activates in that order, stopping at the first reported failure. |
| `Billing.BillingService.GetSubscriptionStatus` | internal/service/billing_service.go:65-157 | The read path stores the read step and answers from the subscription, the trial or the tenant, and fails exactly on an unknown tenant, a failed lookup or a missing plan. |
| `Billing.BillingService.ProcessExpiredSubscriptions` | internal/service/billing_service.go:370-414 | The two loops have the effect of one simultaneous sweep, cut short by a failed list query, and remind exactly the subscriptions that end within three days. |
| `Billing.StepKeepsOneActive` | internal/service/billing_service.go:276-332 | A call keeps at most one active subscription per tenant if and only if it does not create one after the ignored ExpireAllActive failed while the tenant held one. |
| `Billing.AtMostOneActiveSubscription` | internal/service/billing_service.go:222-332 | In every run whose ExpireAllActive calls succeed, whatever else fails, each tenant has at most one active subscription. |
| `Billing.SuccessIsNeverLeft` | internal/service/billing_service.go:222-273 | Whatever fails, a paid order keeps its whole payment row in every continuation. |
| `Billing.StepKeepsLinked` | internal/service/billing_service.go:276-332 | Subscriptions and paid orders keep pointing at each other if and only if the call does not create a subscription and then fail to record it. |
| `Billing.EachOrderCreatesOneSubscription` | internal/service/billing_service.go:222-332 | In every run that records what it creates, each order creates at most one subscription, however its notifications repeat or reorder. |
| `Billing.LostPaymentIsActivatedTwice` | internal/service/billing_service.go:312-325 | A created but unrecorded subscription is created again by the next delivery. |
| `Billing.SuccessStoresTheOrdersSubscription` | internal/service/billing_service.go:276-314 | A settled or accepted capture of an open order stores one active subscription with the order's tenant, plan and cycle, created now and ending after a year exactly for a yearly order, else after a month. |
| `Billing.SuccessSettlesTheOrder` | internal/service/billing_service.go:276-332 | With all writes succeeding it marks the order paid by that subscription, ends the tenant's others and activates the tenant, and touches nothing else. |
| `Billing.OtherNotificationsMarkTheOrder` | internal/service/billing_service.go:260-273 | Deny, cancel and failure end the order as failed, expire as expired, and any other notification changes nothing. |
| `Billing.RunKeepsInv` | internal/service/billing_service.go:65-157 | In every run whose writes succeed, a tenant with an active subscription is active. |
| `Billing.PaidTenantIsNeverSuspended` | internal/service/billing_service.go:370-414 | Neither sweep nor read, whatever of their writes fail, touches a tenant whose active subscription has not expired, nor that subscription. |
| `Billing.SweepIsIdempotent` | internal/service/billing_service.go:370-414 | Sweeping again at the same time stores nothing new. |
| `Billing.SweepRowByRow` | internal/service/billing_service.go:370-414 | The sweep ends exactly the active subscriptions whose end lies in the past, suspends exactly their tenants, and ends exactly the trials that have run out. |
| `Billing.ReadAgreesWithSweep` | internal/service/billing_service.go:65-157 | A read stores for its tenant what the sweep would if and only if the tenant is not on an expired trial without a subscription. |
| `Billing.ReadingEveryTenantIsASweep` | internal/service/billing_service.go:65-157 | With no trial running out, reading every tenant in any order and repetition reaches exactly the sweep's state. |
| `Rbac.CacheKeyIsInjective` | internal/rbac/rbac.go:40-42 | Different tenant and user pairs have different cache keys. |
| `Rbac.Service.Resolve` | internal/rbac/rbac.go:45-98 | A valid entry is answered, otherwise the role is read and cached for five minutes; absence and failures are not cached. |
| `Rbac.Service.HasPermission` | internal/rbac/rbac.go:85-99 | Answers whether the resolved permissions hold the one asked for; a non-member has none, a failed lookup is an error; without a cached entry it grants exactly what the rows grant. |
| `Rbac.Service.GetRole` | internal/rbac/rbac.go:103-118 | Answers the resolved role. |
| `Rbac.Service.GetPermissions` | internal/rbac/rbac.go:121-137 | Answers the resolved permissions, none for a non-member. |
| `Rbac.Service.InvalidateUser` | internal/rbac/rbac.go:80-82 | Drops exactly the entry of the tenant and user. |
| `Rbac.UninterruptedCheck` | internal/rbac/rbac.go:85-99 | A check that nothing interrupts is its lookup step and its store step in a row, with the effect the methods have. |
| `Rbac.InvalidatedAnswersAreDirect` | internal/rbac/rbac.go:77-99 | In every interleaving, a member whose changes have been invalidated while no check in flight held an outdated role is answered as by the membership table, whatever is pending for others. |
| `Rbac.SettledChecksGrantExactlyTheRows` | internal/repository/tenant_user_repository.go:185-199 | Such a check grants a permission only if the membership row exists, is not inactive and has a role with that permission, and always then if the database answers. |
| `Rbac.SettledRolesAreTheRows` | internal/repository/tenant_user_repository.go:185-199 | And its role and permissions are those of the row; it reports no member only when there is no active row. |
| `Rbac.EntriesLiveFiveMinutes` | internal/rbac/rbac.go:58-67 | A cached role is served for exactly 300 seconds, the last instant included, unless dropped. |
| `Rbac.InvalidationTakesEffect` | internal/rbac/rbac.go:77-82 | An invalidation puts a change into effect at once, for every continuation, if and only if no check in flight still holds an outdated role of the member. |
| `Rbac.OutdatedReadingIsServed` | internal/rbac/rbac.go:58-67 | A check that read before a change and stores after its invalidation serves the outdated role. |
| `Rbac.AnswersAreRecent` | internal/rbac/rbac.go:44-67 | In every interleaving and without any invalidation, every answer is what the table said at some moment of the run within the last TTL plus the time between a check's read and its write; in serial runs that is the TTL. |
| `Rbac.AbsenceIsNeverStale` | internal/repository/tenant_user_repository.go:185-199 | A user reported as no member is none at that moment. |
| `Checkin.CheckinService.PerformCheckin` | internal/service/checkin_service.go:352-454 | Succeeds exactly for an existing event, a guest on the roster, no earlier live success and a stored row; the row has the request's method, the requested party or one, and the requested adults and children if they add up to it with an adult, else adults only. |
| `Checkin.CheckinService.RecordFailedCheckin` | internal/service/checkin_service.go:457-493 | Stores at most one failed row without a party. |
| `Checkin.StepKeepsInv` | internal/service/checkin_service.go:352-454 | Every check-in, refusal, removal, roster import and cancellation keeps one live success per guest and event and balanced parties. |
| `Checkin.RunKeepsInv` | internal/service/checkin_service.go:352-454 | So does every run. |
| `Checkin.ChildrenAreNegativeOnlyIfRequested` | internal/service/checkin_service.go:376-390 | Stored children are negative if and only if a negative request already adds up to the party. |
| `Checkin.MethodCountsAddUp` | internal/repository/checkin_repository.go:185-203 | Distinct guests per method sum to the distinct guests checked in. |
| `Checkin.EachGuestsPaxIsCountedOnce` | internal/repository/checkin_repository.go:126-138 | The summed party size is the sum over checked-in guests of their one party, at least their number. |
| `Checkin.AttendeesAreExact` | internal/repository/checkin_repository.go:111-123 | Counted are exactly the guests with a live successful row for the event and an active roster entry. |
| `Checkin.ExpectedAndCheckedInBalance` | internal/service/checkin_service.go:243-248 | Expected plus checked-in guests deleted since equals checked-in plus expected guests who stayed away. |
| `Checkin.NoShowsAreTheAbsent` | internal/service/checkin_service.go:243-248 | The clamped no-show figure is the number of expected guests who stayed away if and only if no checked-in guest was deleted or nobody stayed away. |
| `Checkin.DeletedGuestHidesAnAbsentOne` | internal/service/checkin_service.go:243-248 | A run from an empty table after which the figure says nobody is missing although one guest is. |
| `Checkin.CheckinService.GetStats` | internal/service/checkin_service.go:198-267 | Each method's count is its distinct guests and walk-ins are that of walk-in; in every reachable state the counts add up to the total, the total is at most the party sum, expected and checked-in balance, and no-shows are the guests who stayed away exactly under the condition above. |

## Left out

- Refresh token `Rotate` (internal/auth/refresh.go:166-200): it ignores the row count of its revoke, so one successor per token holds there only call by call.
- Walk-in registration: it inserts guests without a duplicate check, so it is not among the runs of the guest table; its check-in is the modelled one.
- `SendMessage`, `RetryMessage` and campaigns as sources of follow-up rows: they bypass the reminder claim, so the spacing theorem is about rows that enter through the claim.
- The relay theorem considers handlers that finish within 24 hours of the time they read; a slower handler can outlive its own claim.
- RateLimit.Limiter.Check: the commands of one pipeline are one step, so counts between another request's count and add are not modelled; neither are sub-second rounding of Redis expiry and float scores.
- The limiter in internal/repository/redis.go is not wired and not modelled.
- The contents of the role and permission tables: the permission cache is proved for any of them.
- The CSV tokenizer, byte order mark and separator detection: the model starts at records and header map. Guest columns other than name, phone, email and type are left out.
- Calendar arithmetic of billing periods, payment signatures and the snap transaction are inputs; receipt and reminder mail is left out except for who is reminded.
- Tenant status changes made outside billing, and deleting tenants.
- Account columns other than verification and deletion, and memberships an owner adds with an account.
- Check-in lookups by QR token, gate statistics, peak hour, recent list and search masking: queries without state of their own.
- Message subjects, costs and provider status codes; campaigns; building render variables from event and invitation.
- Password hashing, encryption, token generation, HTTP handlers, routing, audit, configuration, migrations: plumbing or primitives taken as given.
