# U-Event backend: what its services keep

A Dafny model of the stateful core of the event platform: registration, tickets and check-in; notification
dispatch, push delivery and device tokens; one-time codes; accounts, roles and organizer requests; and four
self-contained algorithms (QR token codec, unique slugs, calendar months, SQL text). Database tables are maps and
sequences, one committed transaction is one step, times are integers, and hashes and signatures are arbitrary
functions. Each module first gives the operations as functions on whole tables, then proves what every run of them
keeps; where the program updates rows in place, a class does the same with the program's own loops and flags, and
each method is proved equal to its function.

`dafny verify dfyconfig.toml` checks the whole project.

| area | files |
|---|---|
| text, decimal numbers, base64url, JSON | `Text`, `Base64Url`, `TokenJson` |
| QR tokens and ticket codes | `QrToken` |
| registration, ticket, check-in | `Registrations`, `RegistrationReplies`, `CheckinLog`, `Capacity`, `Overbooking`, `RegistrationService` |
| notifications and push delivery | `Notifications`, `NotificationRuns`, `InboxEffects`, `Delivery`, `DeliveryEffects`, `NotificationService`, `RateLimiter` |
| one-time codes | `Otp`, `OtpReplies` |
| roles and organizer requests | `Roles`, `OrganizerRequests`, `RoleService` |
| accounts | `Accounts`, `Logins`, `EmailChange`, `AccountService` |
| algorithms | `Slug`, `Growth`, `GrowthQuery`, `AuditSql` |

## What turned out different from what one would expect

- Issuing a ticket separately never succeeds: a REGISTERED row always has its ticket already
  (`Registrations.CreateTicketNeverIssues`).
- An organizer's direct ticket edit can take an event past its limit. It reads the ticket without a lock and later
  saves every column of that copy, so an edit of the expiry alone can revive a ticket cancelled in between
  (`Overbooking.StaleEditOverbooksFromEmpty`). It does harm exactly when its save makes VALID the ticket of a
  registration that is not active by then: `Overbooking.EditExceedsIff`, `Overbooking.EditThenScanExceedsIff`, and the
  safe half over all interleavings in `Capacity.CapacityHolds`.
- The endpoint documentation says a waitlisted registration has no ticket (`Docs/Endpoint/user_event_flow.md`, line
  449). The code, followed here, leaves a former registrant the cancelled ticket (`Registrations.RegisterResult`).
- A read that slips into the middle of a delivery call is overwritten exactly when the call writes to that row, and no
  run makes the row READ again (`Delivery.ReadDuringCall`).
- Two overlapping delivery calls of one notification can leave a row FAILED with a delivery time, exactly as
  `Delivery.OverlappingCalls` says.
- The rate limit is exact only while the counter key lives. If it expires while a caller is between its add and its incr
  and more than `limit` callers are unfinished, limit + 1 can pass in the new lifetime, and only then
  (`RateLimiter.ExpiryHarmlessIff`); limit + 2 callers reach this from an empty counter
  (`RateLimiter.ExpiryExceedsLimit`).
- The growth series counts in UTC what the database groups by the site's clock: its first bar misses the events of that
  month before the present time of day on its first day (`GrowthQuery.BeforeStart`), and in the last hours of a UTC month
  its last bar is not yet the present month (`GrowthQuery.LastBarIsPresentIff`).
- The code cache takes no part in an email change's transaction: failed checks stay counted when the change is refused
  (`EmailChange.KeysSeeOtpCalls`).
- The first slug candidate may equal a later one, so n taken slugs can cost n + 1 loop rounds, one more
  than there are (`Slug.RoundsBoundReached`); an event whose title leaves no base gets a random slug that is never checked.
- A deleted role row that is still primary makes a login's role sync fail, unless its role is the only one asked for
  (`Roles.SyncFailsIff`). The administrators' refusal to remove a primary role is what keeps such rows from arising.
- Removing single roles never takes organizer from an approved organizer, because approval makes it primary;
  replacing all roles does, exactly when organizer is left out (`OrganizerRequests.ReplacementBreaksApprovalIff`).

## Model

| member | source | states |
|---|---|---|
| Text.DecimalRoundTrip | apps/events/services.py:82 | The decimal text of a number is digits only, never empty, and denotes that number |
| Text.DashSuffixInjective | apps/events/services.py:81-83 | Two texts ending in "-" and a decimal number are equal only if both number and prefix are |
| Text.StripIs | common/otp.py:97 | Stripping takes away white space only, and all of it at both ends |
| Base64Url.DecodeEncode | apps/users/passkey_services.py:320-326 | The lenient decoder gives back every byte string from its encoding (section 5 of RFC 4648) |
| Base64Url.AlphabetIs | apps/registrations/services.py:55-56 | The symbols are A to Z, a to z, 0 to 9, "-" and "_", in this order (section 5 of RFC 4648) |
| Base64Url.GroupIsNumber | apps/registrations/services.py:55-56 | Three bytes and the four symbols for them are the same number, highest first |
| Base64Url.StripRepadLossless | apps/users/passkey_services.py:320-326 | Stripping "=" and adding (-len) mod 4 of them back loses nothing, for every byte string |
| Base64Url.LoneSymbolFails | apps/registrations/services.py:60-67 | A text whose symbols number 1 mod 4 never decodes, whatever pads follow |
| TokenJson.CharRoundTrip | apps/registrations/services.py:53-57 | Every character, escaped as ASCII JSON (surrogate pairs included), is read back as itself |
| TokenJson.ShortEscapesAre | apps/registrations/services.py:54 | A quote and a backslash are escaped by a backslash, line feed, return and tab by their letters |
| TokenJson.UnitIs | apps/registrations/services.py:54 | Any other unit is written as its four lower-case hexadecimal digits |
| TokenJson.ObjectRoundTrip | apps/registrations/services.py:53-67 | Reading a printed flat object gives its members back, in order, whatever texts and integers they hold (sections 6 and 7 of RFC 8259) |
| QrToken.TokenRoundTrip | apps/registrations/services.py:53-67 | A decoded token holds exactly the four fields it was made from, for every ticket id, iat, exp and nonce |
| QrToken.TokenText | apps/registrations/services.py:53-57 | A token's JSON text, keys sorted and without spaces |
| QrToken.IssuedTokenWindow | apps/registrations/services.py:284-332 | A token resolves to its own ticket in exactly the fifteen whole seconds starting with the one it was issued in, and is refused afterwards |
| QrToken.IssuedTokenAges | apps/registrations/services.py:284-332 | So every scan age up to 14 s is accepted and none of 15 s or more |
| QrToken.CodeIsNoToken | apps/registrations/services.py:30-34 | A generated ticket code never decodes as a token |
| QrToken.StoredPayloadResolves | apps/registrations/services.py:37-38 | The payload stored with a ticket resolves by its code at any time |
| Registrations.GenerateCode | apps/registrations/services.py:30-34 | The first drawn code that no ticket has, in the generated form; none only if every draw is taken |
| Registrations.AdmitKeepsCoherent | apps/registrations/services.py:165-193 | Re-registration of a cancelled or rejected row, or a new row, with either next status, keeps rows, tickets and ownership coherent |
| Registrations.RegisterKeepsCoherent | apps/registrations/services.py:127-204 | A whole registration call keeps the tables coherent |
| Registrations.RegisterResult | apps/registrations/services.py:127-204 | A successful registration leaves the user one row, WAITLISTED iff the positive limit is reached; a REGISTERED one has a VALID unused ticket until the event's end, its old one if any; a waitlisted one keeps its cancelled ticket; nobody else's row or ticket changes |
| Registrations.CancelKeepsCoherent | apps/registrations/services.py:207-245 | So does a cancellation |
| Registrations.AdminRestoreKeepsCoherent | apps/system_admin/services/ticket_services.py:161-217 | So does an administrator's restore of a cancelled ticket |
| Registrations.RestoreWriteKeepsCoherent | apps/system_admin/services/ticket_services.py:196-203 | So do a restore's writes on any cancelled row |
| Registrations.AdmissionKeepsCoherent | apps/registrations/services.py:392-433 | So do the writes of a check-in verdict |
| Registrations.ScanKeepsCoherent | apps/registrations/services.py:350-451 | So does a whole scan, by QR, code or email |
| Registrations.StepKeepsCoherent | apps/registrations/services.py:83-245 | Every operation except the direct ticket edit keeps the tables coherent |
| Registrations.EveryRunIsCoherent | apps/registrations/services.py:83-245 | In every run from empty tables: VALID or EXPIRED implies REGISTERED; USED iff CHECKED_IN iff used_at is set; WAITLISTED or CANCELLED implies no ticket or a cancelled one; cancelled_at is set iff CANCELLED |
| Registrations.CreateTicketNeverIssues | apps/registrations/services.py:109-124 | In no such run does the separate ticket-issuing operation succeed |
| Registrations.ScanAdmitsOnlyRegistered | apps/registrations/services.py:388-433 | A successful scan is of a REGISTERED row of this event with a VALID, unexpired ticket |
| Registrations.OwnPayloadFindsTicket | apps/registrations/services.py:307-332 | A stored payload, or a token within its seconds, finds the very ticket it belongs to among all tickets |
| Registrations.FreshQrAdmits | apps/registrations/services.py:275-304 | The QR code issued for a registration, scanned in time at a running event, checks in that registration; a second scan only reports it |
| RegistrationReplies.RegisterReply | apps/registrations/services.py:70-182 | A registration is refused iff the event is not open, registration has not opened or is over, or the event has ended; otherwise it conflicts iff the user has a row that is neither CANCELLED nor REJECTED; otherwise it succeeds unless its random ids or codes are taken |
| RegistrationReplies.RegisterWrites | apps/registrations/services.py:83-182 | The user's row, old or new, gets the answers given, the time of the call and the status the seats allow; with a seat the old ticket is made valid until the event's end or a signed one with the first free code is added; nothing else changes |
| RegistrationReplies.ScanReplies | apps/registrations/services.py:392-442 | For a ticket found: EVENT_UNAVAILABLE iff its row is of this event and the event is closed, not begun or past its end; ALREADY_CHECKED_IN and SUCCESS iff the stored statuses, expiry and event times say so; and the exact row, ticket (EXPIRED mark included) and log that each verdict writes |
| RegistrationReplies.ScanOfNothing | apps/registrations/services.py:366-395 | A scan that finds no ticket changes no row and logs INVALID_FORMAT for a missing or wrong signature and INVALID_TICKET otherwise |
| RegistrationReplies.ScanFinds | apps/registrations/services.py:335-386 | Without payload, a stripped code finds its ticket, and an address the only ticket its users have for this event; a payload needs its signature |
| RegistrationReplies.PayloadFinds | apps/registrations/services.py:307-332 | A signed ticket code, prefixed or not, finds its ticket, and any signed token the ticket it names iff its last second has not come |
| RegistrationReplies.CancelReply | apps/registrations/services.py:208-232 | A cancellation is refused iff the row is CANCELLED, REJECTED or CHECKED_IN; otherwise row, time, non-blank reason and ticket are written and nothing else |
| RegistrationReplies.RestoreReply | apps/system_admin/services/ticket_services.py:161-203 | A restore succeeds iff ticket and row are cancelled, the ticket unused and unexpired, the event open, not over and with a seat; and exactly what it writes |
| RegistrationReplies.CreateTicketReply | apps/registrations/services.py:109-124 | Separate issuing conflicts iff there is a ticket, is refused iff the row is not REGISTERED, and otherwise adds a ticket with the first free code |
| RegistrationReplies.QrReply | apps/registrations/services.py:275-304 | A QR code is issued for exactly the VALID tickets and decodes to that ticket's id, now, fifteen seconds later, and the nonce |
| RegistrationReplies.CancelThenRegister | apps/registrations/services.py:127-232 | A registered attendee who cancels and registers again gets the same row and the same ticket back |
| CheckinLog.OtherStepsKeepCheckedIn | apps/registrations/services.py:211-220 | Only a scan writes the log or makes a row CHECKED_IN, and nothing takes a row out of it |
| CheckinLog.ScanChecksIn | apps/registrations/services.py:401-442 | A scan checks a row in iff its verdict is SUCCESS for that row, which was not checked in before; it logs exactly its verdict |
| CheckinLog.EveryRunLogsOneSuccess | apps/registrations/services.py:350-451 | In every run, direct edits included, a registration has one SUCCESS log iff CHECKED_IN and none otherwise, and an event's successes equal its CHECKED_IN rows in number |
| CheckinLog.CheckedInForever | apps/registrations/services.py:217-220 | A checked-in registration stays so in every run |
| Capacity.AtomicShrinks | apps/registrations/services.py:207-232 | While VALID tickets belong to active rows, cancels, scans, ticket issues and direct edits add no row and no active row, and leave re-registerable rows re-registerable |
| Capacity.CommitWithinLimits | apps/registrations/services.py:148-193 | A commit decided on a count below the limit stays within it |
| Capacity.CommitRestoreKeepsInv | apps/system_admin/services/ticket_services.py:161-203 | A restore holds the event's row lock from its first query on, so the seat its count found is still free when it commits |
| Capacity.NextKeepsInv | apps/registrations/services.py:127-193 | Every allowed step of every interleaving keeps the locks, the own-row reads, the counts' role as upper bounds, and VALID tickets with active rows |
| Capacity.CapacityHolds | apps/registrations/services.py:127-193 | However registrants interleave at lock, own-row read, count, write and commit, with administrators' restores at lock, count and commit, with cancels, scans and ticket issues, and with edits that read at any time and make VALID only the ticket of a row active at their save, active rows never exceed a positive fixed limit and no user has two rows; without edits the tables stay coherent |
| Capacity.UninterruptedIsRegister | apps/registrations/services.py:127-193 | Run without interruption the five steps are exactly the atomic registration |
| Capacity.UninterruptedIsRestore | apps/system_admin/services/ticket_services.py:161-217 | Run without interruption the three steps of a restore are exactly the atomic restore |
| Overbooking.ScanCounts | apps/registrations/services.py:401-433 | A scan by code adds an active row iff its verdict is SUCCESS and the row was not active |
| Overbooking.EditThenScanExceedsIff | apps/registrations/views.py:568-576 | At a full running event the save of an edit, whatever copy it writes back, followed by a scan goes past the limit iff the row is WAITLISTED at the save and the save makes its ticket VALID beyond now |
| Overbooking.EditExceedsIff | apps/registrations/views.py:568-576 | With the owner registering again in between, iff the save makes VALID beyond now the ticket of a row that is not active by then |
| Overbooking.EditOverbooksFromEmpty | apps/registrations/views.py:568-576 | A run from empty tables in which one edit and one scan admit a second attendee for one seat |
| Overbooking.StaleEditOverbooksFromEmpty | apps/registrations/views.py:568-576 | A run from empty tables in which an edit of the expiry alone, read before the owner's cancel and saved after it, revives the ticket and leads to a second attendee for one seat |
| Overbooking.SaveWrites | apps/registrations/views.py:568-576 | A save writes what was asked for and otherwise the status, use time and expiry it has read; reading and saving with nothing in between changes nothing |
| RegistrationService.Service.constructor | apps/registrations/services.py:1-23 | A new service has empty, coherent tables |
| RegistrationService.Service.GenerateTicketCode | apps/registrations/services.py:30-34 | The loop returns the first drawn code that is free, all earlier draws being taken, and none only if all are |
| RegistrationService.Service.IssueDefaultTicket | apps/registrations/services.py:83-93 | Adds one ticket with a fresh code, its payload and signature, or leaves the tables alone |
| RegistrationService.Service.RestoreTicketForRegistration | apps/registrations/services.py:96-105 | Makes the ticket valid and unused with the event's end as expiry, keeping its code, or issues one |
| RegistrationService.Service.CreateTicketForRegistration | apps/registrations/services.py:109-124 | The tables and reply are those of the issuing operation, and coherent tables stay coherent |
| RegistrationService.Service.CreateEventRegistration | apps/registrations/services.py:127-204 | The tables and reply are those of registration, and coherent tables stay coherent |
| RegistrationService.Service.CancelEventRegistration | apps/registrations/services.py:207-245 | The tables and reply are those of cancellation, and coherent tables stay coherent |
| RegistrationService.Service.IssueRegistrationQr | apps/registrations/services.py:275-304 | Refused without a VALID ticket; otherwise a signed token payload for that ticket |
| RegistrationService.Service.ProcessCheckinScan | apps/registrations/services.py:350-451 | The tables and reply are those of a scan, and coherent tables stay coherent |
| RegistrationService.Service.JudgeAndMark | apps/registrations/services.py:392-433 | The chain of checks gives the verdict, with exactly that verdict's writes |
| RateLimiter.ExactlyLimitPass | apps/notifications/services/event_notification_service.py:480-518 | Within one lifetime of the key at most `limit` callers pass under any interleaving, and once all n have finished exactly min(n, limit) have |
| RateLimiter.LimitPerLifetime | apps/notifications/services/event_notification_service.py:480-518 | Over several lifetimes, none ending between a caller's add and incr, at most `limit` pass for each |
| RateLimiter.ExpiryHarmlessIff | apps/notifications/services/event_notification_service.py:501-508 | For every state, an expiry leaves every continuation of the new lifetime within `limit` passes iff it catches no caller between its add and its incr or at most `limit` callers are unfinished |
| RateLimiter.ExpiryExceedsLimit | apps/notifications/services/event_notification_service.py:480-518 | Such an expiry is reached from an empty counter with limit + 2 callers, for every limit |
| RateLimiter.Counter.EnforceBroadcastRateLimit | apps/notifications/services/event_notification_service.py:480-518 | One caller alone takes its three steps of the protocol and passes iff the count was below the limit |
| Notifications.DetachKeepsSessions | apps/notifications/services/inbox_service.py:103-107 | Taking tokens away keeps each token on at most one session and each session under its own key |
| Notifications.RegisterKeepsSessions | apps/notifications/services/inbox_service.py:86-120 | Registering a device keeps that, and makes the token the caller's alone |
| Notifications.QueuedOfIs | apps/notifications/services/push_delivery_service.py:33-40 | The queue is exactly the QUEUED rows of the notification, in order of creation |
| Notifications.PairTokensDiffer | apps/notifications/services/push_delivery_service.py:59-70 | No token occurs twice among a batch's messages |
| Notifications.PairsCover | apps/notifications/services/push_delivery_service.py:63-70 | A recipient has a message iff it is in the batch and its user has a usable token |
| NotificationRuns.DispatchRows | apps/notifications/services/event_notification_service.py:415-477 | Dispatch makes one row for each distinct user, QUEUED iff push is allowed, and queued_count is the number of QUEUED rows |
| NotificationRuns.DeliverRow | apps/notifications/services/push_delivery_service.py:208-236 | A delivery call settles each row by its verdict and gives a verdict only to queued rows |
| NotificationRuns.StepKeepsInv | apps/notifications/services/inbox_service.py:31-132 | Dispatch, delivery, reading, opening and device steps keep all row, uniqueness and token invariants |
| NotificationRuns.EveryRunIsConsistent | apps/notifications/services/inbox_service.py:31-82 | In every timed run: READ iff read_at is set; QUEUED or FAILED implies no delivered_at; SENT implies delivered_at; opened implies read no later; one row per user and notification; a token on at most one session |
| NotificationRuns.ReadIsFinal | apps/notifications/services/inbox_service.py:48-51 | A read row keeps its status and read time in every run |
| InboxEffects.DispatchWrites | apps/notifications/services/event_notification_service.py:437-477 | Every field of each new row, for push allowed, refused by preference and not asked for; queued_count is the number of users who get push |
| InboxEffects.OrderOfAppearance | apps/notifications/services/event_notification_service.py:415-417 | Recipients come in the order in which they first appear |
| InboxEffects.ReadWrites | apps/notifications/services/inbox_service.py:33-53 | Only the caller's own unread row changes: READ at the time of the call |
| InboxEffects.OpenWrites | apps/notifications/services/inbox_service.py:57-82 | The first opening gives the open time; an unread row is read at its open time; no other row changes |
| InboxEffects.RegisterWrites | apps/notifications/services/inbox_service.py:86-120 | The caller's session for the token is renewed in place or added, every other user's session with it loses it, and all other sessions stay |
| InboxEffects.UnregisterWrites | apps/notifications/services/inbox_service.py:124-132 | Exactly the caller's sessions with that token lose it |
| Delivery.DictionaryKeepsReplies | apps/notifications/services/push_delivery_service.py:84 | With distinct tokens the token-to-result dictionary keeps every reply in its place |
| Delivery.PairsOfRecipient | apps/notifications/services/push_delivery_service.py:53-70 | The messages to a recipient carry exactly its user's usable tokens |
| Delivery.CallByTokens | apps/notifications/services/push_delivery_service.py:90-135 | A call marks a recipient SENT iff some token of its user succeeded, leaves it QUEUED iff none did and some was retryable, and marks it FAILED otherwise |
| Delivery.ReportAddsUp | apps/notifications/services/push_delivery_service.py:136-147 | A call raises iff some recipient is to be retried; otherwise queued = sent + failed = the batch's size |
| Delivery.OthersUntouched | apps/notifications/services/push_delivery_service.py:33-40 | A call never changes a row that is not QUEUED or belongs to another notification |
| Delivery.StillQueued | apps/notifications/services/push_delivery_service.py:126-139 | After a call, raising or not, exactly the retryable recipients and those beyond the batch are still QUEUED |
| Delivery.CallTakesBatch | apps/notifications/services/push_delivery_service.py:25-48 | A call that does not raise takes exactly its batch off the front of the queue |
| Delivery.CallsDrain | apps/notifications/services/push_delivery_service.py:25-48 | k such calls leave max(0, n - k * size), so n queued recipients take exactly ceil(n / size) calls |
| Delivery.NeverReadAgain | apps/notifications/services/inbox_service.py:48-51 | A SENT or FAILED row that already has a read time keeps status and read time in every run |
| Delivery.ReadDuringCall | apps/notifications/services/push_delivery_service.py:207-229 | A row read between a call's query and its writes stays consistent iff the call does not write to it; otherwise no run ever makes it READ again |
| Delivery.OverlappingCalls | apps/notifications/services/push_delivery_service.py:210-229 | Of two calls that both read the queue before either writes, the second leaves the row FAILED with a delivery time iff the first delivered and the second gives up on failed replies; a recorded delivery is lost iff the second gives up or finds no token |
| DeliveryEffects.BatchIs | apps/notifications/services/push_delivery_service.py:33-40 | A row is taken iff it is QUEUED for the notification and fewer than the batch size of such rows were created before it |
| DeliveryEffects.MessagesAre | apps/notifications/services/push_delivery_service.py:50-70 | A token is sent to iff a session of a taken recipient's user holds it, non-empty, not revoked and not expired |
| DeliveryEffects.RowAfter | apps/notifications/services/push_delivery_service.py:72-135 | How each row ends, status, time and reason, by whether it had a message, a success, or something to retry; every other row is unchanged |
| DeliveryEffects.SessionAfter | apps/notifications/services/push_delivery_service.py:108-110 | A session loses its token iff a message to that token was answered with neither success nor retry but as invalid; every other session is unchanged |
| DeliveryEffects.ReportCounts | apps/notifications/services/push_delivery_service.py:136-147 | The report's sent, failed and invalid numbers are the rows that became SENT and FAILED and the sessions that lost their token; the number raised is that of the rows still QUEUED |
| NotificationService.Service.constructor | apps/notifications/services/inbox_service.py:23-32 | A new service has empty, consistent tables |
| NotificationService.Service.UniqueUsers | apps/notifications/services/event_notification_service.py:415-417 | The distinct users in order of first appearance, gaps dropped |
| NotificationService.Service.BuildRows | apps/notifications/services/event_notification_service.py:437-463 | The row for each user and the number of them that are QUEUED |
| NotificationService.Service.CreateAndDispatch | apps/notifications/services/event_notification_service.py:401-477 | The tables and counts are those of dispatch, and stay consistent |
| NotificationService.Service.MarkRead | apps/notifications/services/inbox_service.py:33-53 | Sets the first read time and READ on the caller's own row only |
| NotificationService.Service.MarkOpened | apps/notifications/services/inbox_service.py:57-82 | Sets the first open time, and reads the row if it was unread |
| NotificationService.Service.RegisterDevice | apps/notifications/services/inbox_service.py:86-120 | Takes the token from others and writes the caller's session in place, or creates it if its key is new |
| NotificationService.Service.UnregisterDevice | apps/notifications/services/inbox_service.py:124-132 | Detaches exactly the caller's sessions with that token and returns how many there were |
| NotificationService.Service.GroupTokens | apps/notifications/services/push_delivery_service.py:59-61 | The dictionary gives each user exactly its usable tokens in order |
| NotificationService.QueryKeepsTokens | apps/notifications/services/push_delivery_service.py:50-58 | Querying sessions by the batch's users loses no usable token of those users |
| NotificationService.Service.CollectPairs | apps/notifications/services/push_delivery_service.py:63-70 | The messages, and in batch order the recipients without a token |
| NotificationService.SetsAreVerdicts | apps/notifications/services/push_delivery_service.py:126-128 | After the subtractions the three sets are exactly the recipients with each verdict |
| NotificationService.Service.Classify | apps/notifications/services/push_delivery_service.py:84-124 | The loop over the dictionary's results fills the three sets and the invalid tokens by each message's own reply |
| NotificationService.Service.PersistDeliveryResults | apps/notifications/services/push_delivery_service.py:210-236 | The bulk updates touch exactly the two sets' rows and the sessions of the invalid tokens |
| NotificationService.CallIsDeliver | apps/notifications/services/push_delivery_service.py:72-147 | Set subtraction and bulk updates by id give every recipient its verdict and the report its numbers |
| NotificationService.Service.DeliverNotification | apps/notifications/services/push_delivery_service.py:29-147 | Tables and report of the imperative call are those of the specification, for any replies of the push client |
| Otp.ApplyKeepsOrdered | common/otp.py:56-111 | Every call keeps the attempts key living at least as long as the code |
| Otp.AttemptsOutliveCode | common/otp.py:69-72 | In every timed run the attempts key is live whenever the code is |
| Otp.GuessLimit | common/otp.py:91-101 | Between two sends a code sees at most OTP_MAX_ATTEMPTS mismatches |
| Otp.LockedOut | common/otp.py:91-95 | After that many mismatches no verify succeeds until the next send |
| Otp.SpentCodeNeverVerifies | common/otp.py:103-111 | A code found locked or gone, or consumed, verifies nothing more until the next send, so it completes at most one consuming verify |
| Otp.VerifiedMatchesLastSend | common/otp.py:78-105 | A verify succeeds only with the last code sent, unconsumed, within its lifetime |
| Otp.SendsAreSpaced | common/otp.py:61-72 | n sends with no consume between them span at least (n - 1) cooldowns |
| Otp.GuessesInWindow | common/otp.py:56-111 | While nothing is consumed, a window of T seconds sees at most maxAttempts * (T / cooldown + 2) wrong guesses |
| OtpReplies.SendReplies | common/otp.py:56-75 | In every timed run a code is sent unless an unspent one was sent less than a cooldown ago, and then the answer is exactly the time left |
| OtpReplies.VerifyReplies | common/otp.py:78-105 | In every timed run a verify finds the code gone unless the newest send is unspent and within its lifetime; then it is locked after OTP_MAX_ATTEMPTS misses since that send, verified for exactly that code, consuming or not, and otherwise answered with the misses left |
| Otp.OtpCache.SendOtp | common/otp.py:56-75 | Keys and reply are those of a send, in order of expiry |
| Otp.OtpCache.VerifyOtp | common/otp.py:78-105 | Keys and reply are those of a verify, in order of expiry |
| Otp.OtpCache.ConsumeOtp | common/otp.py:108-111 | All three keys are gone |
| Roles.SyncResult | apps/users/services.py:401-429 | A sync with role codes ends with every code live and exactly one live primary role: the one there was, or else the first code; other rows are unchanged |
| Roles.SyncFailsIff | apps/users/services.py:408-427 | Under the table's constraint a sync fails iff a deleted row is primary and its role is not the only one asked for |
| Roles.EnsureDefaultResult | apps/users/services.py:331-353 | A user without live role ends with student as the one live and primary role; it fails iff student is inactive or another deleted row is primary |
| Roles.MakeOrganizerResult | apps/organizer_requests/services.py:159-186 | Approval makes organizer the only primary role whatever the rows were, and takes no role away |
| Roles.AssignKeeps | apps/system_admin/services/user_services.py:337-357 | Assigning a known role keeps at most one primary, never a deleted one, and all live roles |
| Roles.AssignResult | apps/system_admin/services/user_services.py:337-357 | An assignment is refused iff the role is unknown or has a row already, deleted or not; otherwise that one live row is new, primary iff the user had no live role |
| Roles.RemoveKeeps | apps/system_admin/services/user_services.py:368-383 | So does removing one, and the primary role stays |
| Roles.RemoveResult | apps/system_admin/services/user_services.py:368-383 | A removal is refused iff the role is unknown, not held or primary; otherwise that role is no longer live and no other row changes |
| Roles.ReplaceResult | apps/system_admin/services/user_services.py:17-86 | Replacing roles fails only for an unknown code; otherwise exactly the roles asked for are live, with one primary: the old one if it stays, or else the first |
| Roles.MapRolesIs | apps/users/services.py:381-398 | The codes are, each once, the first active candidate of every realm role that has one; the first code is that of the first such role |
| Roles.MapRolesAre | apps/users/services.py:268-272 | The three realm roles and the local codes each gives, spelled out |
| Roles.FirstActiveIs | apps/users/services.py:389-393 | The candidate chosen is active and all before it are not |
| Roles.SyncFromRealmKeeps | apps/users/services.py:356-363 | After a login's sync every mapped role is live, no live role is lost, and the user has one |
| Roles.LoginRoles | apps/users/services.py:331-429 | After a login the live roles are those there were and those its realm roles give, or student alone for a user who would have none; the primary role stays, or is the first of these; it fails iff that default is needed and inactive |
| Roles.SyncFromRealmTwice | apps/users/services.py:356-363 | Syncing the same realm roles again changes nothing |
| OrganizerRequests.StepKeepsInv | apps/organizer_requests/services.py:47-61 | Requests, decisions, logins and administrators' role changes keep role rows well formed and pending requests unique |
| OrganizerRequests.EveryRunIsConsistent | apps/users/models/user_role.py:18-25 | In every run no deleted row is primary, a user has at most one primary role and at most one PENDING request |
| OrganizerRequests.ApprovedAreOrganizers | apps/organizer_requests/services.py:47-61 | In every run, removal of single roles included, a user has at most one request PENDING or APPROVED and holds a live organizer role while one is APPROVED, as long as replacements keep organizer |
| OrganizerRequests.ReplacementBreaksApprovalIff | apps/system_admin/services/user_services.py:59-62 | Replacing an approved user's roles breaks this iff organizer is left out; the user may then ask again |
| OrganizerRequests.DecisionIsFinal | apps/organizer_requests/services.py:89-93 | Once a request has left PENDING no run changes it |
| OrganizerRequests.ApproveResult | apps/organizer_requests/services.py:143-205 | When approval is refused, and that it decides this request, makes organizer its user's only primary role, and changes nothing else |
| OrganizerRequests.CreateResult | apps/organizer_requests/services.py:47-61 | A request is refused iff the user is banned, holds a live organizer role or has one pending; otherwise a pending one is added |
| OrganizerRequests.CancelResult | apps/organizer_requests/services.py:80-94 | A cancellation is refused iff the request is not the caller's or not pending; otherwise its status alone changes |
| OrganizerRequests.RejectResult | apps/organizer_requests/services.py:209-225 | A rejection is refused iff the request is not pending; otherwise status, reviewer and note are written, and no role changes |
| RoleService.MapRealmRolesToLocalCodes | apps/users/services.py:381-398 | The loop over the mapping gives the mapped codes |
| RoleService.FindActive | apps/users/services.py:390-393 | The loop that stops at the first active candidate finds it |
| RoleService.Service.EnsureUserRoles | apps/users/services.py:401-429 | The loop with its flag, its rows read beforehand and its partial saves gives the sync's rows, or fails and leaves the table alone; the table's constraint is kept |
| RoleService.Service.EnsureDefaultStudentRole | apps/users/services.py:331-353 | The rows are those of the default-role step, under the table's constraint, which is kept |
| RoleService.Service.SyncRolesFromPayload | apps/users/services.py:356-363 | The rows are those of a login's sync, under the table's constraint, which is kept |
| RoleService.Service.ReplaceUserRoles | apps/system_admin/services/user_services.py:17-86 | The loop that restores, updates or creates each row gives the replaced rows, or fails and leaves the table alone; the table's constraint is kept |
| RoleService.Service.AssignUserRole | apps/system_admin/services/user_services.py:337-357 | The rows are those of an assignment, refused for an unknown role, a role there already, or a deleted row in its way; the table's constraint is kept |
| RoleService.Service.RemoveUserRole | apps/system_admin/services/user_services.py:368-383 | The rows are those of a removal, refused for an unknown, missing or primary role; the table's constraint is kept |
| RoleService.Service.CreateRequest | apps/organizer_requests/services.py:47-61 | A new PENDING request, refused for the banned, for organizers, and while one is pending |
| RoleService.Service.CancelRequest | apps/organizer_requests/services.py:80-94 | Only the caller's own pending request is cancelled |
| RoleService.Service.ApproveRequest | apps/organizer_requests/services.py:143-192 | Request and role rows, changed field by field, are those of an approval |
| RoleService.Service.RejectRequest | apps/organizer_requests/services.py:209-225 | Only a pending request is rejected, with reviewer and note |
| Accounts.FindByEmailIs | apps/users/services.py:474-482 | Nobody, the one, or several: what the lookup by email, ignoring case, has found |
| Accounts.SaveUserKeeps | apps/users/services.py:505-538 | A checked write keeps usernames unique, exactly and ignoring case |
| Accounts.ProvisionResult | apps/users/services.py:276-324 | A successful login's subject stands for one user who may log in, is named by the login's email and holds a role; a known subject keeps its user, a new one is linked to the user of its email; no other user changes |
| Accounts.ProvisionTwice | apps/users/services.py:276-324 | The same login again changes no user, identity or role |
| Logins.LoginSucceedsIff | apps/users/services.py:276-353 | A login succeeds iff its subject and verified email are there, its user, if any, is live, enabled and not banned, no other user has the email for a name, and it leaves a role |
| Logins.LoginWrites | apps/users/services.py:276-552 | The whole user row: superuser and staff iff so before or super_admin is among the realm roles; the claimed name, else given and family name, else the old one; the picture, else the old avatar, else a generated one; the live roles; the identity; and nothing else |
| Logins.EmailChangesIff | apps/users/services.py:146-245 | An email change succeeds iff the user has an email, the new one differs and is no other user's email or name, the codes are right, Keycloak takes it, and the user has a live identity, the given one if one is given |
| Accounts.ProfileTwice | apps/users/services.py:515-538 | The profile written by a login, generated avatar and superuser flags included, is left as it is by the same login |
| Accounts.ChangeEmailKeeps | apps/users/services.py:146-214 | An email change sets email and username of that user alone and keeps all names unique |
| Accounts.StepKeepsInv | apps/users/services.py:146-324 | Logins, email changes, bans, soft deletion and unlinking keep names unique and subjects in place |
| Accounts.EveryRunNamesUnique | apps/users/services.py:472-512 | In every run live users never share a username or an email, ignoring case, so no login finds several users |
| Accounts.SubjectNeverMoves | apps/users/services.py:285-312 | A Keycloak subject is never moved to another user, in any run |
| AccountService.Service.constructor | apps/users/services.py:264-273 | A new service has empty, consistent tables |
| AccountService.Service.UsersOfEmail | apps/users/services.py:474-480 | Two rows at most tell whether an email has no, one or several users |
| AccountService.Service.GetOrCreateUserForEmail | apps/users/services.py:473-493 | The user found or created, or a failure that changes nothing |
| AccountService.Service.UpdateNames | apps/users/services.py:520-529 | Field-by-field updates give the named user, marked changed iff it is |
| AccountService.Service.UpdateFields | apps/users/services.py:520-537 | The same with the avatar: the profile, saved iff something changed |
| AccountService.Service.SyncUserProfile | apps/users/services.py:515-538 | The users are those of the profile step, or unchanged |
| AccountService.Service.ProvisionFromPayload | apps/users/services.py:276-324 | The tables and the user are those of a login, and stay consistent; a login that raises changes nothing |
| EmailChange.ChangesIff | apps/users/services.py:146-245 | The email changes iff the user is live and has one, the new one differs and is nobody else's email or name, both addresses hold a live unlocked code equal to the one given, Keycloak takes the address and the user has a live identity, the given one if one is given; what is written then, and that otherwise no table changes |
| EmailChange.KeysSeeOtpCalls | apps/users/services.py:177-212 | To each address's code keys a change does exactly what at most two verifies and a consume do, so the bounds on guesses hold here, too, though the cache is never rolled back |
| EmailChange.CodesServeOneChange | apps/users/services.py:211-212 | The codes of one change serve no other: in every run after it, of changes, code calls and any other change of the tables, requests needing a code of either address fail until a new one is sent there |
| EmailChange.ChangeKeepsNames | apps/users/services.py:208-210 | A change sets email and username of that user alone and keeps names unique |
| AccountService.Service.VerifyEmailOtp | apps/users/services.py:247-261 | The reply and the cache are those of one code check without consuming |
| AccountService.Service.ChangeEmailWithOtp | apps/users/services.py:146-214 | Tables, code cache and reply are those of an email change with its two codes, and the tables stay consistent |
| Slug.CandidatesDiffer | apps/events/services.py:80-83 | Numbered candidates of different rounds differ, whatever the base and the truncation |
| Slug.CandidateKeeps | apps/events/services.py:76-83 | A candidate is as much of the base as fits before its number |
| Slug.RoundsAreBounded | apps/events/services.py:80-83 | Rounds 2 to n - 1 all taken means at least n - 2 taken slugs |
| Slug.BuildUnique | apps/events/services.py:78-84 | The loop ends within \|taken\| + 2 candidates with the first free one, which fits the limit iff its suffix does |
| Slug.SlugFits | apps/events/services.py:83 | While the number of taken slugs leaves room for its digits, the slug fits |
| Slug.RoundsBoundReached | apps/events/services.py:78-83 | For every n >= 1 some n taken slugs cost n + 2 candidates, so the bound is the best |
| Slug.BuildEventSlug | apps/events/services.py:72-84 | An event's slug is free iff there was a base or its random slug happened to be; with a base at most 280 characters, without one the random slug |
| Slug.BuildCategorySlug | apps/system_admin/services/category_services.py:56-67 | A category's slug is free and at most 140 characters; no base, no slug |
| Growth.MinusDaysCounts | apps/system_admin/services/dashboard_services.py:114 | Subtracting days month by month agrees with the calendar's day count |
| Growth.PlusDaysCounts | apps/system_admin/services/dashboard_services.py:130 | So does adding days |
| Growth.OrdinalInjective | apps/system_admin/services/dashboard_services.py:114 | The day count determines the date |
| Growth.StartIsFiveMonthsBack | apps/system_admin/services/dashboard_services.py:114 | 150 days before the first of a month always falls in the month five earlier |
| Growth.StepIsNextMonth | apps/system_admin/services/dashboard_services.py:130-131 | Day 28 plus 4 days always falls in the next month |
| Growth.BarRange | apps/system_admin/services/dashboard_services.py:145-146 | A bar is between 8 and 100, grows with its part and is full for the whole |
| Growth.BarIsNearest | apps/system_admin/services/dashboard_services.py:145-146 | A bar above 8 is the nearest whole percentage, the even one of two; 8 stands for every part up to 8.5 percent |
| Growth.CollectMonths | apps/system_admin/services/dashboard_services.py:124-131 | The cursor visits the six consecutive months ending with the current one, with their counts |
| Growth.Accumulate | apps/system_admin/services/dashboard_services.py:134-139 | The running totals never shrink and end in the sum, which is their maximum |
| Growth.BuildGrowthSeries | apps/system_admin/services/dashboard_services.py:112-150 | Six points, for those months, scaled against the largest month and the total, all within 8..100, the last highlighted |
| GrowthQuery.MonthCountsAre | apps/system_admin/services/dashboard_services.py:113-122 | The counts behind the last five bars are complete; the first is short by the events dropped from its month, and short iff some event of that month was created before the window starts |
| GrowthQuery.BeforeStart | apps/system_admin/services/dashboard_services.py:114-116 | Which those are: of the first month only, events of its first day before the present time of day, and those that by UTC still belong to the day before |
| GrowthQuery.LastBarIsPresentIff | apps/system_admin/services/dashboard_services.py:113-124 | The last bar is the present month of the site's clock except in the hours when that clock is already in the next one |
| AuditSql.QuotedRoundTrip | apps/system_admin/services/openobserve_audit_client.py:136-142 | A text with its quotes doubled is read back as itself and the reader stops at the closing quote |
| AuditSql.ConditionsRoundTrip | apps/system_admin/services/openobserve_audit_client.py:123 | Joined conditions are read back as the same conditions in order, whatever " AND " they contain |
| AuditSql.SqlRoundTrip | apps/system_admin/services/openobserve_audit_client.py:118-142 | Read with SQL's quote doubling (subclauses 5.2 and 5.3 of ISO/IEC 9075-2), the printed query has the given stream and exactly the non-empty filters in order |
| AuditSql.SqlOfTwo | apps/system_admin/services/openobserve_audit_client.py:118-142 | The text itself, for two filters with any names and values and one without a value |
| AuditSql.SqlInjective | apps/system_admin/services/openobserve_audit_client.py:118-142 | Two queries with the same text ask the same |

## Left out

- Views, serializers, URL tables, admin pages, response formatting and message texts: wiring without state.
- Keycloak, Firebase, S3, mail and OpenObserve calls: Keycloak succeeds or the step aborts, the push client returns any list of replies, and a push client that itself raises is not modelled.
- HMAC, SHA-256 and random generators: signing is an arbitrary function; the device session's hash is taken to be injective; random codes are any sequence of draws, so a code generator that finds every draw taken shows up as a failed call instead of an endless loop.
- Soft deletion of registrations, tickets and notification rows, and the `answers_locked` flag: nothing modelled sets or reads them.
- QrToken.TokenRoundTrip: the reader takes the ASCII text of a flat object of texts and integers; other JSON and other bytes decode to nothing here. Only payloads signed by the server reach the decoder.
- Ticket ids that are no UUID, which the database lookup of a signed token would refuse with another error.
- QrToken.IssuedTokenWindow: times are whole microseconds; the rounding of a floating-point timestamp is not modelled.
- Capacity.CapacityHolds: an event keeps one limit; saves of edits that make VALID the ticket of a row not active by then are not among the steps, since the limit fails with them (`Overbooking.EditExceedsIff`). Scans and ticket issues wait for the event row, too; the model lets them commit sooner, which only adds runs.
- Overbooking.EditExceedsIff: an edit's save overwrites the status, use time and expiry of its copy; the ticket's other columns never change and are not written.
- Registrations.CancelKeepsCoherent: a cancellation is one transaction on the row as it is; the program reads row and ticket before its transaction starts and takes no lock, so its atomicity is an assumption, also of `Capacity.CapacityHolds` and `CheckinLog.CheckedInForever`: saved late, it could take back a check-in or miss a ticket issued since.
- Registrations.EveryRunIsCoherent: direct ticket edits are left out of coherence, because they may set any status; `CheckinLog` keeps them in.
- Otp.GuessLimit: calls are atomic and seconds are whole; the program reads and writes the keys without a lock, so overlapping verifies may count fewer mismatches, and the cache's rounding of remaining time is not modelled.
- NotificationRuns.EveryRunIsConsistent: a delivery call is one step; what a read inside a call and what a second call inside a call do is stated by `Delivery.ReadDuringCall` and `Delivery.OverlappingCalls`.
- Concurrent dispatch conflicts (`ignore_conflicts`) and quiet hours: a notification is new when its rows are made, and whether push is allowed is an arbitrary function of the user.
- OrganizerRequests.ApprovedAreOrganizers: runs whose replacement of roles drops organizer are excluded, because it fails there; `OrganizerRequests.ReplacementBreaksApprovalIff` says exactly when.
- Role activation is a parameter of each step, unchanged during it.
- Accounts.EveryRunNamesUnique: restoring a soft-deleted user, and administrators' creating users with a username of their own or editing names by hand, are not steps; case folding is any function, and the normalisation Django applies in `create_user` before the profile step overwrites both fields is not modelled.
- Reading realm roles and claims out of a token's JSON types: given as sets and texts.
- Accounts.ChangeEmailKeeps: the one-time codes are one boolean there; `EmailChange` has them as keys of the cache. A Keycloak update that went through stays when the local save then fails; Keycloak's own state is not modelled.
- Which of several identities a Keycloak email update is sent for: it matters only to that foreign call.
- Slug.BuildEventSlug: `slugify` is not modelled; the base slug and the random slug are given.
- Growth.BuildGrowthSeries: the counts are a parameter (`GrowthQuery` has the query); the ratio is rounded exactly with ties to even instead of in floating point, and the year range of Python's dates is not modelled.
- Co-host grants, organizer membership, passkey ceremonies, support tickets, help center, locations, categories other than slugs, moderation and the AI questions: short branches or little state.
