# ServiceMan back end: a verified model of the service-request workflow

ServiceMan is a Django back end that matches clients with servicemen. An
administrator assigns a serviceman to a client's request. The serviceman
submits a cost estimate. The administrator adds a platform fee and sends the
price to the client. After payment the administrator authorizes the work, the
serviceman marks it complete, the administrator confirms it, and the client
leaves a 1–5 star review that is folded into the serviceman's rating.

This project models that workflow in Dafny, together with what surrounds it:

- the availability tracker that marks servicemen busy or free;
- role-based visibility of requests;
- the status-history duration lookup;
- booking-fee and payment status updates;
- account registration and administration;
- the per-user notification inbox.

Every HTTP handler is a pure function from the stored rows (`Workflow.Db`) and
the caller to either a new state or an error (`Result`). A rejected call
returns no state, so it changes nothing. Database I/O, the payment gateway and
the clock become parameters.

Modules, one file each:

| file | module | what it models |
|---|---|---|
| wrappers.dfy | `Wrappers` | `Option`, `Result` |
| seqs.dfy | `Seqs` | the ORM's order-preserving `filter` and `count` |
| decimals.dfy | `Decimals` | two-place values, `round(d, 2)` (half-even), and the rounding of a two-place column |
| users.dfy | `Users` | accounts, roles, skills, the two profile kinds |
| services.dfy | `Services` | categories, the 14 statuses, the request record |
| notifications.dfy | `Notifications` | notification records, `notify_user`, `notify_admins` |
| inbox.dfy | `Inbox` | list, unread count, mark read, mark all read, send |
| availability.dfy | `Availability` | the availability tracker in apps/services/signals.py |
| history.dfy | `History` | status history, `time_in_previous_status`, notes |
| visibility.dfy | `Visibility` | who may list, read and create requests and categories |
| payments.dfy | `Payments` | booking-fee tiers, payment creation, webhook, verify |
| accounts.dfy | `Accounts` | whitespace stripping, registration, admin creation, profile dispatch, skills, approvals |
| workflow.dfy | `Workflow` | the six workflow transitions, the invariant they keep, the lifecycle |

Each workflow handler is split in two:

- `XChecks` performs the guards in the source's order: role (403), lookup
  (404), assignment or ownership (403), status (400), then the input (400).
- The handler performs the write. Its contract is stated against the
  `XChecks` result.

The source has two defects in the workflow's path: the availability tracker
ignores backup servicemen, and a bad estimate or markup ends in a server error
(see "## Findings"). Every handler that saves therefore takes a
`Workflow.Reading`:

- `AsWritten` runs the tracker and the number checks exactly as the source
  has them;
- `Corrected` runs the tracker that reconciles every serviceman a save
  touches, and answers a bad number with a 400.

Money is stored as its column stores it. The estimate, the markup and the
final price are rounded to two places, ties away from zero, as PostgreSQL's
`numeric(p, 2)` does on insert.

`Workflow.Wellformed` is what every handler keeps under either reading:

- request keys are unique;
- every serviceman account has a profile;
- every assigned primary serviceman is a serviceman account;
- every rating is a two-place value in 0..5;
- stored money has two places and is never negative;
- every request carries exactly the data its stage needs. From
  PENDING_ESTIMATION on a serviceman is assigned. An estimate exists exactly
  from ESTIMATION_SUBMITTED on. A final price exists exactly from
  AWAITING_CLIENT_APPROVAL on, and then the estimate is positive and the final
  price is at least the estimate.

`Workflow.Invariant` adds `Workflow.Agrees`: every availability flag agrees
with that serviceman's active requests. The corrected handlers keep it. The
handlers as written keep it only while no request has a backup or is
soft-deleted (`Workflow.PrimariesOnly`); `Workflow.BackupLeftAvailableAsWritten`
shows a single call that breaks it.

The invariant covers the six workflow handlers only. Three other writers can
break `Agrees`:

- the serviceman-profile edit (`Accounts.UpdateServicemanProfile`), which
  writes `is_available` from the request body; apps/services/signals.py:139-141
  logs a warning for exactly that case;
- a profile store that fails after its account was committed; the handler in
  apps/users/signals.py swallows the error, leaving a serviceman without a
  profile;
- the assignment, creation, payment-linking and cancellation steps, whose code
  is not part of this model.

## Model

| member | source | states |
|---|---|---|
| Users.ParseUserType | apps/users/models.py:33-41 | a stored role code reads back as exactly the role whose code it is; any other text is no role |
| Users.UserTypeCode | apps/users/models.py:41 | every role code fits the 15-character column |
| Users.NewSkill | apps/users/models.py:18-21 | a skill created without category is OTHER, with an empty description, and active |
| Users.NewClientProfile | apps/users/models.py:46-49 | a new client profile has empty phone number and address |
| Users.NewServicemanProfile | apps/users/models.py:53-85 | a new serviceman profile is unrated (0.0, a valid two-place rating), has no jobs, is available, is not approved, and has no category, skills or rejection reason |
| Users.FindUser | apps/notifications/views.py:86-91 | the lookup by key finds an account with that key, or reports that none has it |
| Services.ParseStatus | apps/services/models.py:16-44 | a stored status code reads back as exactly the status whose code it is |
| Services.StatusCode | apps/services/models.py:52 | every status code fits the 32-character column |
| Services.StatusesPartitioned | apps/services/models.py:16-44 | there are 9 workflow statuses and 5 legacy ones, and every status is in exactly one group |
| Services.NewServiceRequest | apps/services/models.py:45-64 | a new request has no serviceman or backup, no estimate or final cost, a 10.00 markup, no emergency flags, and is not deleted |
| Services.FindRequest | apps/services/workflow_views.py:110 | `get_object_or_404` by key: the first position holding that key, or none when no request has it |
| Seqs.Filter | apps/services/views.py:103-105 | the selection holds exactly the elements satisfying the predicate and is no longer than the input |
| Seqs.FilterAppend | apps/services/views.py:103-105 | selecting from a concatenation concatenates the selections, so order and repeats are kept |
| Seqs.FilterSingleton | apps/services/views.py:103-105 | a single element is kept exactly when it satisfies the predicate |
| Seqs.Count | apps/services/signals.py:80-84 | the count equals the length of the selection |
| Decimals.RoundHalfEven2 | apps/services/workflow_views.py:627 | the rounded value has two places, is within 0.005 of the input, leaves two-place inputs alone, and on a tie lands on an even last digit |
| Decimals.RoundHalfEven | apps/services/workflow_views.py:627 | the integer within one half of the input, the input itself when it is whole, and the even one on a tie |
| Decimals.RoundIsNearest | apps/services/workflow_views.py:627 | no other two-place value is closer to the input than the rounded one |
| Decimals.RoundStaysBetween | apps/services/workflow_views.py:627 | rounding a value between two two-place bounds stays between them |
| Decimals.RoundHalfAway | apps/services/models.py:54-56 | the integer within one half of the input, the input itself when it is whole, and on a tie the one farther from zero |
| Decimals.StoreCentsExample | apps/payments/models.py:16 | the two-place column stores 12.345 as 12.35, where Python's `round` gives 12.34 |
| Decimals.StoreCents | apps/services/models.py:54-56 | a two-place column keeps a two-place value within 0.005 of the input, the input itself when it has two places, and on a tie the one farther from zero |
| Decimals.StoreStaysBetween | apps/services/models.py:54-56 | storing a value between two two-place bounds stays between them |
| Decimals.TinyStoredAsZero | apps/services/models.py:54 | a value below half a cent is stored as zero |
| Decimals.StoreNonNegative | apps/services/models.py:54-56 | a non-negative value is stored as a non-negative one |
| Decimals.CentsSum | apps/services/models.py:54-56 | the sum of two two-place values has two places |
| Notifications.NotifyUser | apps/services/workflow_views.py:52-61 | exactly one unread record, for the given user and nobody else, with the given kind, content and request |
| Notifications.NotifyAdmins | apps/services/workflow_views.py:38-49 | one unread ADMIN_ALERT per administrator account, in account order, each with the same content and request |
| Notifications.NotifyAdminsOnePerAdmin | apps/services/workflow_views.py:38-49 | with unique account keys, every administrator receives exactly one record and every other user none |
| Notifications.NotifyAdminsSkipsOthers | apps/services/workflow_views.py:40-48 | a user with no account among the senders receives no record |
| Notifications.CountForIsCount | apps/services/workflow_views.py:38-61 | the per-user count is the generic count of records addressed to that user |
| Notifications.CountForAppend | apps/services/workflow_views.py:38-61 | per-user counts add up over concatenated logs |
| Notifications.CountForNone | apps/services/workflow_views.py:38-61 | a log with no record for a user counts zero for them |
| Inbox.InboxOf | apps/notifications/views.py:15 | the list holds exactly the caller's notifications, each once, latest inserted first |
| Inbox.InboxNewestFirst | apps/notifications/views.py:15 | in a log appended in time order the list is ordered by creation time, newest first |
| Inbox.UnreadCount | apps/notifications/views.py:20 | the count is zero exactly when every notification of the caller is read |
| Inbox.UnreadCountLocal | apps/notifications/views.py:20 | the count depends only on the caller's unread notifications |
| Inbox.MarkRead | apps/notifications/views.py:26-28 | succeeds exactly for a key the caller owns, and then marks that one notification read and changes nothing else |
| Inbox.MarkAllRead | apps/notifications/views.py:34 | marks every notification of the caller read and leaves all others as they were |
| Inbox.MarkAllReadEffect | apps/notifications/views.py:34 | afterwards the caller has nothing unread and every other user's unread count is unchanged |
| Inbox.Send | apps/notifications/views.py:67-112 | rejects a non-admin caller, then missing user, title or message; a user id, or a given request id, that is not a number is a server error, since only `DoesNotExist` is caught; then an unknown user or request is refused; on success appends one unread notification for the user, typed SERVICE_ASSIGNED unless given |
| Inbox.UnreadCountAppend | apps/notifications/views.py:20 | unread counts add up over concatenated logs |
| Inbox.UnreadCountReplace | apps/notifications/views.py:20-28 | replacing one record changes a user's unread count by what the new record adds minus what the old one did |
| Inbox.MarkReadEffect | apps/notifications/views.py:26-28 | marking one record read lowers the caller's unread count by one exactly when it was unread, and no other user's count changes |
| Inbox.SendAddsOneUnread | apps/notifications/views.py:105-112 | a sent notification raises the recipient's unread count by one and nobody else's |
| Availability.ActiveCount | apps/services/signals.py:80-84 | the active-job count is zero exactly when no request both names the user (primary or backup) and is live and IN_PROGRESS |
| Availability.Reconcile | apps/services/signals.py:69-99 | a missing or non-serviceman user is left alone; otherwise the flag becomes "no active jobs"; fails only when a serviceman has no profile |
| Availability.ReconcileIdempotent | apps/services/signals.py:88-99 | reconciling twice equals reconciling once, and the second call has nothing to write |
| Availability.ReconcileAll | apps/services/signals.py:64-66 | reconciling a list of users sets each listed serviceman's flag to its active-job value and leaves everyone else unchanged |
| Availability.CountAfterReplace | apps/services/signals.py:80-84 | replacing one request changes only the counts of users it occupies before or after |
| Availability.UpdateAvailability | apps/services/signals.py:31-66 | the corrected tracker: a save that keeps the same servicemen busy changes nothing, and otherwise each profile either stays or gets its correct flag |
| Availability.UpdateAvailabilityKeepsConsistent | apps/services/signals.py:31-99 | after any single-request save the corrected tracker leaves every serviceman's flag equal to "no active jobs" |
| Availability.UpdateAvailabilityAsWritten | apps/services/signals.py:42-66 | as written: no serviceman means no change; entering IN_PROGRESS makes the primary busy; entering COMPLETED or CANCELLED reconciles the primary; a changed primary reconciles the old and new holder |
| Availability.BackupLeftBusyAsWritten | apps/services/signals.py:58-61 | a backup serviceman whose only active job completes stays busy as written, leaving the flags inconsistent |
| Availability.BackupFreedWhenCorrected | apps/services/signals.py:58-66 | in the same scenario the corrected tracker frees the backup and leaves every flag consistent |
| Availability.ReconcileAllFlagsOnly | apps/services/signals.py:88-99 | reconciling a list of users writes availability flags and nothing else |
| Availability.ReconcileOnly | apps/services/signals.py:69-99 | reconciling a list naming one serviceman sets that serviceman's flag from the active jobs and changes nothing else |
| Availability.PrimaryTransition | apps/services/signals.py:50-61 | entering IN_PROGRESS marks the primary busy and fails without a profile; entering COMPLETED or CANCELLED reconciles the primary; any other save changes nothing |
| Availability.QuietSaveUntracked | apps/services/signals.py:42-66 | a save that keeps the servicemen and neither leaves nor enters IN_PROGRESS, COMPLETED or CANCELLED changes no profile under either tracker |
| Availability.LogManualAvailabilityChange | apps/services/signals.py:103-146 | reports only a changed flag, warns exactly when the serviceman turns available with active jobs, and returns no profile |
| Availability.ManualChangeBreaksAgreement | apps/services/signals.py:103-146 | a manual change to a flag that agreed with the active jobs always makes it disagree; the warning fires exactly when the new flag claims availability |
| History.TimeInPreviousStatus | apps/services/status_history_models.py:72-88 | none for an initial entry or when no earlier entry of the same request entered the previous status; otherwise the positive time since the latest such entry |
| History.NewNote | apps/services/status_history_models.py:111-125 | a note defaults to SYSTEM and visible to the client |
| Visibility.ListRequests | apps/services/views.py:97-106 | an administrator sees every request; anyone else sees exactly the requests they may open |
| Visibility.ListCreatePermitted | apps/services/views.py:92-95 | listing needs a signed-in user, creating needs a client |
| Visibility.RetrieveRequestAsWritten | apps/services/views.py:124-134 | an unknown key is not found; a known one is returned exactly when the caller may see it; otherwise the refusal is a server error, never a permission error, because `rest_framework.permissions` has no `PermissionDenied` |
| Visibility.RetrieveRequest | apps/services/views.py:124-134 | the intended detail view: an unknown key is not found; a known one is returned exactly when the caller may see it, else permission is denied |
| Visibility.RetrieveDiffersOnlyInRefusal | apps/services/views.py:124-134 | the two readings return the same request and the same 404, and the intended 403 is exactly the as-written 500 |
| Visibility.OtherClientGetsServerError | apps/services/views.py:130-134 | a client opening another client's request gets a 500 as written and a 403 as intended |
| Visibility.ListAgreesWithDetail | apps/services/views.py:97-134 | with unique keys, a request is in a user's list exactly when that user may open it |
| Visibility.CategoryQueryset | apps/services/views.py:35-40 | listing shows exactly the active categories; creating works over all of them |
| Visibility.CategoryServicemen | apps/services/views.py:64-67 | exactly the serviceman accounts whose profile lies in the category |
| Visibility.CategoryListAppends | apps/services/views.py:35-40 | adding a category adds it to the public list exactly when it is active, at the end |
| Visibility.CategoryChangeMoves | apps/services/views.py:64-67 | after a serviceman's profile moves to a category, the serviceman is listed under it and under no other |
| Payments.BookingFee | apps/payments/views.py:19-20 | the fee is 5000.00 exactly for an emergency and 2000.00 otherwise |
| Payments.IsEmergencyView | apps/payments/serializers.py:16-29 | a stored flag is shown unchanged; without one the flag is "amount at least 5000" |
| Payments.FeeTierRoundTrip | apps/payments/serializers.py:25-27 | deriving the flag from a booking fee recovers the tier the fee was charged for |
| Payments.FindPayment | apps/payments/views.py:218 | finds a payment with the reference, or reports that none has it |
| Payments.FindPaymentByReference | apps/payments/views.py:218 | the lookup depends on nothing but the references |
| Payments.Insert | apps/payments/models.py:17 | the insert succeeds exactly when the reference is new, and keeps references unique |
| Payments.Truthy | apps/payments/views.py:64 | Python truthiness of the posted flag: false for absent, null, false, zero, the empty string and an empty collection |
| Payments.StoredFlag | apps/payments/models.py:20 | the boolean column accepts true, false, 1, 0 and the texts "t", "True", "1", "f", "False", "0"; anything else cannot be stored |
| Payments.InitializeBookingFee | apps/payments/views.py:60-125 | as written: without a frontend URL it is a configuration error; a flag the column refuses fails the insert; on success it appends one unlinked, PENDING, INITIAL_BOOKING payment whose fee follows the truthiness of the posted value and whose flag is the column's reading of it |
| Payments.FalseTextChargedEmergency | apps/payments/views.py:60-125 | posting the text "False" charges the emergency fee while storing a false flag, so the stored flag and the amount disagree |
| Payments.InitializeBookingFeeCorrected | apps/payments/views.py:60-125 | the fee follows the stored flag; success and every failure are those of the handler as written |
| Payments.CorrectedFeeMatchesFlag | apps/payments/serializers.py:16-29 | the corrected fee always gives back the stored flag; for a posted boolean or no flag at all the two handlers agree |
| Payments.PaymentTypeCode | apps/payments/models.py:5-8 | every payment-type code fits the 16-character column |
| Payments.ParsePaymentType | apps/payments/models.py:5-15 | stored text reads back as exactly the choice whose code it is; any other text is no choice |
| Payments.InitializePayment | apps/payments/views.py:164-184 | an unknown request is not found, then a missing configuration or gateway fails; a missing payment type or amount, a type longer than its column or an amount that is no number makes the insert fail; otherwise one PENDING payment linked to the request is appended, holding the posted type verbatim and the amount rounded to the nearest cent |
| Payments.InitializedPaymentReadsBack | apps/payments/models.py:15-16 | a payment posted with a choice code and the amount 12.345 reads back as that choice and as 12.35 |
| Payments.Webhook | apps/payments/views.py:202-224 | a bad signature is refused; other events change nothing; charge.success marks the payment SUCCESSFUL and stamps the time only if it was not already successful |
| Payments.WebhookIdempotent | apps/payments/views.py:216-224 | a redelivered webhook changes nothing, whenever it arrives |
| Payments.Verify | apps/payments/views.py:234-245 | gateway success sets SUCCESSFUL with the payment time; anything else sets FAILED, even over SUCCESSFUL; nothing else changes |
| Payments.StatusUpdateKeepsReferences | apps/payments/views.py:216-245 | a status update keeps references unique and every lookup by reference the same |
| Payments.VerifyRepeated | apps/payments/views.py:234-245 | verifying keeps references unique; repeating a failed verification changes nothing, and repeating a successful one only moves the payment time |
| Payments.ApplyWrite | apps/payments/serializers.py:14 | a serializer write never changes status, payment time, access code or the emergency flag |
| Payments.WriteKeepsReferences | apps/payments/models.py:17 | a serializer write that sends no reference keeps references unique and every lookup by reference finding the same row |
| Accounts.CreateUserProfile | apps/users/signals.py:7-17 | acts only for a new user; a client gets a client profile, a serviceman a serviceman profile, an administrator none; an existing profile is kept; a failure changes nothing |
| Accounts.CreateUserProfileIdempotent | apps/users/signals.py:10-12 | running the handler again for the same user changes nothing |
| Accounts.CreateUserProfileOneKind | apps/users/signals.py:9-12 | the handler never gives a user a second kind of profile |
| Accounts.MaxId | apps/users/serializers.py:38-40 | the largest key in use bounds every key and is one of them |
| Accounts.NextUserId | apps/users/serializers.py:38-40 | a new account gets a key no account holds |
| Accounts.ActiveSkills | apps/users/serializers.py:44 | exactly the requested ids that name an active skill |
| Accounts.LeadingSpaces | apps/users/serializers.py:13 | the whitespace run that opens the text, stopping at the first other character |
| Accounts.TrailingSpaces | apps/users/serializers.py:13 | the whitespace run that closes the text, stopping at the last other character |
| Accounts.Strip | apps/users/serializers.py:13 | the stripped text is the middle slice with only whitespace around it, and it neither starts nor ends with whitespace |
| Accounts.StripIdempotent | apps/users/serializers.py:13 | stripping twice is stripping once |
| Accounts.StripTrimmed | apps/users/serializers.py:13 | text without whitespace at either end is its own strip |
| Accounts.LeadingSpacesUpTo | apps/users/serializers.py:13 | the opening whitespace run ends at the first character that is not whitespace |
| Accounts.IdentityChecks | apps/users/models.py:42 | the username and email fields accept exactly stripped values that are not blank, pass their format validators and are not taken, and return them |
| Accounts.PasswordCheck | apps/users/serializers.py:13 | accepts exactly a password whose stripped form has at least 8 characters, and returns that form |
| Accounts.RegisterChecks | apps/users/serializers.py:12-33 | passes exactly for a free, well-formed username and email, a stripped password of at least 8 characters and a known role other than ADMIN, and returns that role |
| Accounts.AssignSkills | apps/users/serializers.py:43-45 | setting a serviceman's skills replaces that profile's skills and touches no other profile, key or account |
| Accounts.CreateAccount | apps/users/serializers.py:35-47 | appends the account under a fresh key with its stripped username and email and its profile, and gives a serviceman the active subset of a non-empty skill list |
| Accounts.Register | apps/users/serializers.py:12-47 | succeeds exactly when the stripped fields pass their checks and the role is not ADMIN; the new account is appended with its profile, and a serviceman gets the active subset of a non-empty skill list |
| Accounts.RegisterSeesStripped | apps/users/serializers.py:12-45 | two sign-ups whose username, e-mail and password agree once stripped get the same answer and the same account |
| Accounts.PaddingIsStripped | apps/users/serializers.py:13 | examples: a password of seven spaces and one letter is too short, and " bob" is taken when "bob" is |
| Accounts.UpperCaseMatches | apps/users/serializers.py:70 | an upper-cased name still matches the original case-insensitively |
| Accounts.ValidateSkillName | apps/users/serializers.py:62-72 | a stripped, non-blank name is accepted exactly when no stored skill name matches it case-insensitively, and is stored stripped |
| Accounts.ShoutedSkillNameRejected | apps/users/serializers.py:68-72 | a stored name in capitals is rejected |
| Accounts.SkillNameCheckIgnoresCase | apps/users/serializers.py:68-72 | two names that match case-insensitively are both accepted or both refused |
| Accounts.StoredSkillNameRefused | apps/users/serializers.py:68-72 | once a skill is stored under an accepted name, the same name is refused |
| Accounts.ProfileUpdateError | apps/users/serializers.py:75-89 | the first field the profile serializer refuses: an unknown category key, years outside the 32-bit column or not a whole number, a stripped phone number over 20 characters; none exactly when the update is valid |
| Accounts.UpdateServicemanProfile | apps/users/serializers.py:75-107 | refuses, in field order, an unknown category key, years that are not a whole number the column holds, and a stripped phone number longer than 20 characters; otherwise stores bio and phone number stripped, never changes user, rating or job count, and keeps skills when absent, sets the active subset when given, and clears them for an empty list |
| Accounts.AdminCreate | apps/users/serializers.py:110-152 | succeeds exactly for a free, well-formed username and email and two stripped passwords of at least 8 characters that are equal (checked last); the account is always ADMIN, staff and verified, and gets no profile |
| Accounts.AdminCreateKeepsProfilesOwned | apps/users/serializers.py:138-152 | creating an administrator adds no profile and keeps every profile owned by an account |
| Accounts.AdminPasswordsCompareStripped | apps/users/serializers.py:112-136 | the two passwords are compared after stripping: any long enough password with whitespace around it matches its stripped confirmation, and so "abcdefgh " matches "abcdefgh", and the account is created |
| Accounts.Badge | apps/users/admin.py:71-78 | Approved exactly when approved; Rejected exactly when unapproved with a reason; otherwise Pending |
| Accounts.Unapproved | apps/users/admin.py:84 | the selected profiles that are not yet approved |
| Accounts.ApproveServicemen | apps/users/admin.py:81-89 | only unapproved selected profiles change, each to approved by the admin at the given time; the count is their number |
| Accounts.RejectServicemen | apps/users/admin.py:92-97 | only unapproved selected profiles change, each getting the bulk rejection reason; the count is their number |
| Accounts.BulkActionBadges | apps/users/admin.py:71-96 | after bulk approval every selected profile shows Approved; after bulk rejection each shows Approved if it was, else Rejected |
| Accounts.BulkActionsSettle | apps/users/admin.py:84-96 | a repeated bulk approval changes nothing and reports 0; a repeated bulk rejection leaves the profiles as they are |
| Accounts.SetSkillsActive | apps/users/admin.py:132-141 | every selected skill gets the flag, no other skill changes, and the count is the number of selected skills |
| Accounts.SetSkillsActiveEffect | apps/users/admin.py:132-141 | a repeated toggle changes nothing; after activation the selected skills are offered to servicemen, after deactivation none of them is |
| Workflow.ParseEstimateAsWritten | apps/services/workflow_views.py:126-143 | as written: a missing estimate is a 400, and a non-positive or non-numeric one ends in a server error |
| Workflow.ParseEstimate | apps/services/workflow_views.py:126-143 | the corrected check accepts exactly a positive number; a missing one is a missing field, any other is an invalid value |
| Workflow.ParseMarkupAsWritten | apps/services/workflow_views.py:225-236 | as written: absent means 10, and a markup outside 0..100 or non-numeric ends in a server error |
| Workflow.ParseMarkup | apps/services/workflow_views.py:225-236 | the corrected check: absent means 10, the result lies in 0..100, and every refusal is an invalid value |
| Workflow.ParsersDifferOnlyInErrorCode | apps/services/workflow_views.py:135-143 | the written and corrected checks accept the same inputs with the same values and differ only in answering server error for invalid value |
| Workflow.BadNumbersAreServerErrors | apps/services/workflow_views.py:139 | an estimate of -5 and a markup of 150 end in a server error as written and an invalid value as corrected |
| Workflow.ParseRating | apps/services/workflow_views.py:593-610 | accepts exactly an integer in 1..5; a missing rating (including 0) is a missing field |
| Workflow.ParsedRatingKeepsRatingsSound | apps/services/workflow_views.py:593-630 | any score the rating check accepts keeps every rating a two-place value in 0..5 once folded in, and came from the posted integer |
| Workflow.FeeAtMostBase | apps/services/workflow_views.py:240 | with a markup of at most 100% the fee never exceeds the estimate |
| Workflow.FinalPriceBounds | apps/services/workflow_views.py:239-241 | the final price is at least the estimate, equals it at 0%, at most doubles it at 100%, and gives back the markup |
| Workflow.FoldRating | apps/services/workflow_views.py:626-627 | the new average is a two-place value |
| Workflow.FoldRatingFirstJob | apps/services/workflow_views.py:626-627 | after the first job the rating is exactly that job's score |
| Workflow.FoldRatingBetween | apps/services/workflow_views.py:626-627 | the new rating lies between the old rating and the new score |
| Workflow.MeanBetween | apps/services/workflow_views.py:626 | the weighted mean of the old rating and the score lies between them |
| Workflow.FoldRatingScenario | apps/services/workflow_views.py:618-628 | scores of 5, 3 and 4 after one, two and three jobs give 5.00, 4.00 and 4.00 |
| Workflow.Locate | apps/services/workflow_views.py:104-110 | a caller of the wrong role is forbidden, then an unknown key is not found; otherwise the request's position |
| Workflow.Save | apps/services/signals.py:14-66 | a save stores the request and may touch only availability flags; under either tracker a quiet save changes no profile, and under the corrected one neither does any save that keeps the same servicemen busy |
| Workflow.EstimateChecks | apps/services/workflow_views.py:104-143 | passes exactly for the request's primary serviceman, at PENDING_ESTIMATION, with a positive estimate; each failure is the one the guards reach first, a bad number being a server error as written and a 400 as corrected |
| Workflow.SubmitEstimate | apps/services/workflow_views.py:103-157 | fails exactly when the checks fail, with their error; otherwise stores the estimate rounded to two places, moves to ESTIMATION_SUBMITTED, alerts every administrator with the estimate as sent, and changes nothing else |
| Workflow.FinalizeChecks | apps/services/workflow_views.py:204-236 | passes exactly for an administrator, at ESTIMATION_SUBMITTED, with a non-zero stored estimate and a markup in 0..100; a bad markup is a server error as written and a 400 as corrected |
| Workflow.FinalizePrice | apps/services/workflow_views.py:203-262 | fails exactly when the checks fail; otherwise stores the markup and the final price worked out from it, each rounded to two places, moves to AWAITING_CLIENT_APPROVAL, sends the client a payment request, and changes nothing else |
| Workflow.TinyEstimateLost | apps/services/workflow_views.py:126-217 | an estimate of 0.001 passes the check, is stored as 0.00, and finalizing then reports the estimate missing |
| Workflow.AuthorizeChecks | apps/services/workflow_views.py:311-330 | passes exactly for an administrator, at PAYMENT_COMPLETED, with a serviceman assigned |
| Workflow.AuthorizeWork | apps/services/workflow_views.py:310-360 | moves to IN_PROGRESS and tells the serviceman and then the client; a request without a final price fails as a whole |
| Workflow.AuthorizeFailsOnlyOnGuards | apps/services/workflow_views.py:311-360 | while the request and profile facts hold, authorizing succeeds exactly for an administrator on a PAYMENT_COMPLETED request, under either tracker |
| Workflow.BumpJobs | apps/services/workflow_views.py:435-440 | the serviceman's job count goes up by exactly one and no other profile changes; a missing profile is skipped |
| Workflow.CompleteChecks | apps/services/workflow_views.py:403-424 | passes exactly for the primary serviceman (not the backup) at IN_PROGRESS |
| Workflow.CompleteJob | apps/services/workflow_views.py:402-447 | moves to COMPLETED, stamps the completion time, counts the job, alerts every administrator, and changes nothing else |
| Workflow.CompleteFailsOnlyOnGuards | apps/services/workflow_views.py:403-447 | while the request and profile facts hold, completing succeeds exactly for the primary serviceman on an IN_PROGRESS request, under either tracker |
| Workflow.ConfirmCompletion | apps/services/workflow_views.py:490-519 | succeeds exactly for an administrator on a COMPLETED request with a serviceman; adds one notification for the client and changes nothing else |
| Workflow.ConfirmFailsOnlyOnGuards | apps/services/workflow_views.py:491-519 | while the request facts hold, confirming never fails for want of a serviceman |
| Workflow.ApplyReview | apps/services/workflow_views.py:618-630 | with a profile and at least one job the rating becomes the rounded new average; otherwise, and for every other profile, nothing changes |
| Workflow.ReviewChecks | apps/services/workflow_views.py:571-610 | passes exactly for the owning client at COMPLETED with a rating in 1..5 |
| Workflow.SubmitReview | apps/services/workflow_views.py:570-648 | moves to CLIENT_REVIEWED, folds the score into the rating, tells the serviceman (if any) and every administrator, and changes nothing else |
| Workflow.Stage | apps/services/models.py:16-36 | the eight statuses of the main line have a stage below 8; CANCELLED and the legacy statuses have none |
| Workflow.SaveSucceeds | apps/services/signals.py:42-99 | with every serviceman account holding a profile and the saved request staffed by a serviceman account, neither tracker raises |
| Workflow.SaveKeepsInvariant | apps/services/signals.py:31-99 | saving a well-priced request, staffed by a serviceman account, under its own key never fails under either tracker and keeps the request and profile facts; the corrected tracker also keeps every flag in agreement |
| Availability.TrackersAgreeOnPrimary | apps/services/signals.py:42-66 | on a request with no backup that is not soft-deleted, when work starts or ends, both trackers set the primary's flag from its active jobs and change no other profile |
| Workflow.TrackersAgreeOnPrimaryOnly | apps/services/signals.py:42-99 | on a request with no backup that is not soft-deleted, the tracker as written and the corrected one make the same change when work starts and when it ends |
| Workflow.QuietSaveKeepsInvariant | apps/services/signals.py:42-66 | a quiet save of a well-priced request is the same under either tracker and keeps the invariant |
| Workflow.ProfileUpdateKeepsInvariant | apps/users/serializers.py:91-107 | a serviceman-profile edit keeps the well-formed part of the invariant, and keeps availability agreement exactly when it sends no flag or the flag the active jobs call for |
| Workflow.ProfileEditKeepsInvariant | apps/services/workflow_views.py:433-440 | profile edits that keep keys and availability flags and leave ratings sound keep the invariant |
| Workflow.BumpJobsKeepsInvariant | apps/services/workflow_views.py:435-440 | counting a job keeps the invariant |
| Workflow.ApplyReviewKeepsRatingsSound | apps/services/workflow_views.py:618-630 | folding a 1..5 score into ratings in 0..5 keeps them two-place values in 0..5 |
| Workflow.ApplyReviewKeepsInvariant | apps/services/workflow_views.py:618-630 | folding a score keeps the invariant |
| Workflow.EstimatedWellPriced | apps/services/workflow_views.py:146-148 | a positive estimate stored to two places over a PENDING_ESTIMATION request gives a non-negative two-place estimate at ESTIMATION_SUBMITTED, in a save no tracker reacts to |
| Workflow.SubmitEstimateKeepsInvariant | apps/services/workflow_views.py:146-150 | submitting an estimate keeps the invariant under either reading |
| Workflow.FinalizedWellPriced | apps/services/workflow_views.py:238-249 | with a non-zero estimate and a markup in 0..100 the stored final price has two places and is at least the estimate |
| Workflow.FinalizePriceKeepsInvariant | apps/services/workflow_views.py:238-249 | finalizing a price keeps the invariant under either reading; in particular the stored final price is at least the estimate |
| Workflow.AuthorizeWorkKeepsInvariant | apps/services/workflow_views.py:335-337 | authorizing work keeps the request and profile facts under either reading; the flags stay in agreement under the corrected tracker, and as written when the request has no backup and is not soft-deleted |
| Workflow.CompleteJobKeepsInvariant | apps/services/workflow_views.py:428-440 | completing a job keeps the request and profile facts under either reading; the flags stay in agreement under the corrected tracker, and as written when the request has no backup and is not soft-deleted |
| Workflow.SubmitReviewKeepsInvariant | apps/services/workflow_views.py:613-630 | submitting a review keeps the invariant under either reading |
| Workflow.Step | apps/services/workflow_views.py:103-648 | an accepted call names an existing request, keeps the accounts, every request's key, servicemen and deletion flag, and only appends notifications |
| Workflow.StepKeepsInvariant | apps/services/workflow_views.py:103-648 | every accepted call keeps the request and profile facts and adds no backup or soft deletion; the flags stay in agreement under the corrected tracker, and as written while no request has a backup or is soft-deleted |
| Workflow.TeamDbInvariant | apps/services/signals.py:42-66 | the two-serviceman example state satisfies the invariant |
| Workflow.BackupLeftAvailableAsWritten | apps/services/signals.py:50-55 | as written, authorizing a request with a backup leaves the backup marked available while it works the job, so the flags disagree |
| Workflow.BackupBusyWhenCorrected | apps/services/signals.py:50-66 | in the same state the corrected tracker marks the backup busy and keeps the invariant |
| Workflow.SubmitEstimateMoves | apps/services/workflow_views.py:120-148 | an accepted estimate moves its request from PENDING_ESTIMATION to ESTIMATION_SUBMITTED and no other request's status changes |
| Workflow.FinalizePriceMoves | apps/services/workflow_views.py:213-247 | an accepted price moves its request from ESTIMATION_SUBMITTED to AWAITING_CLIENT_APPROVAL only |
| Workflow.AuthorizeWorkMoves | apps/services/workflow_views.py:320-336 | an accepted authorization moves its request from PAYMENT_COMPLETED to IN_PROGRESS only |
| Workflow.CompleteJobMoves | apps/services/workflow_views.py:419-430 | an accepted completion moves its request from IN_PROGRESS to COMPLETED only |
| Workflow.SubmitReviewMoves | apps/services/workflow_views.py:586-614 | an accepted review moves its request from COMPLETED to CLIENT_REVIEWED only |
| Workflow.StepFollowsLifecycle | apps/services/workflow_views.py:103-648 | every accepted call moves the named request one edge forward on the main line, or leaves it COMPLETED, and no other request's status changes |

## Left out

- HTTP and rendering: response bodies, status codes and message text, `extend_schema`, and the float pricing breakdown. Errors are `Error` variants. Workflow notifications carry the event they report, not rendered text.
- E-mail and Celery: the mail sent by a manual notification. Other mail, tokens and background tasks are not part of this model.
- The payment gateway and webhook cryptography: `initialize_payment`, `verify_payment` and the HMAC-SHA512 digest are parameters. The digest is compared for equality with the given signature.
- Migration-safety schema probing in the booking-fee view and the manual-availability logger: the schema is taken as fixed, with the `is_emergency` column present.
- Transactions and concurrency: each call is one sequential step, and a failure inside `transaction.atomic` returns no state.
- Timestamps: the clock is an integer parameter `now`.
- Database column limits: the stored money is rounded to two places, but a value of 10^8 or more, which overflows a 10-digit column and fails the save, is not refused. The invariant proves ratings stay in 0..5, so they fit their 3-digit column.
- Decimals.StoreCents: rounds ties away from zero, as PostgreSQL's `numeric` does. Another database engine may round differently; the engine is inferred from the `information_schema` query in apps/payments/views.py:100-105.
- Decimal precision: Python's 28-digit decimal division is modelled as exact division on reals. The results differ only for job counts beyond 10^22.
- `Decimal(str(x))` of infinities and NaN: such input is classed as `Unconvertible`.
- Case-insensitive skill-name matching: only ASCII letters are folded.
- Users.FindUser, Services.FindRequest: a repeated key finds the first row. The database forbids repeats, and `UniqueRequestIds` is part of the invariant.
- The assign-serviceman, create-request, payment-linking and cancellation transitions: their code is not part of this model. `Workflow.Invariant` assumes that those steps keep it; in particular `Workflow.AssignedServicemen` assumes only serviceman accounts are assigned, which the foreign key does not enforce.
- Workflow.Save: under `AsWritten` it keeps the availability flags in agreement only for requests with no backup that are not soft-deleted. The tracker as written never marks a backup busy, never frees one, and marks the primary busy even on a soft-deleted request.
- Workflow.AuthorizeWork, Workflow.CompleteJob: under `AsWritten` a request with a backup leaves the backup's flag wrong (`Workflow.BackupLeftAvailableAsWritten`, `Availability.BackupLeftBusyAsWritten`).
- Workflow.StepKeepsInvariant: the availability part of the invariant is proved for the handlers as written only while no request has a backup or is soft-deleted. Only the corrected tracker keeps it in general.
- Workflow.Invariant: the serviceman-profile edit and a swallowed profile-store failure can break `Workflow.Agrees`; neither is one of the workflow handlers the invariant is proved for.
- Accounts.Register, Accounts.AdminCreate: the model reports the first failing field only, where the serializer collects every field's errors in one response. `first_name` and `last_name` are not modelled.
- Accounts.IdentityChecks: the username and email format rules (`UnicodeUsernameValidator`, `EmailValidator`) and their length limits of 150 and 254 are given as predicates, not written out as regular expressions.
- Accounts.ValidateSkillName: the 100-character limit on skill names is not modelled.
- Accounts.Strip: whitespace is the set Python's `str.strip()` removes, written out by code point for the Unicode version current Python ships; a later Unicode revision could change it.
- `preferred_serviceman` and the request serializer: not part of this model.
- Accounts.Register: assumes the profile handler's store succeeds. A failed profile store after the user commit is not modelled. The precondition `ProfilesOwned` says every existing profile belongs to an existing account, which the foreign keys guarantee.
- Payments.IsEmergencyView: compares exact amounts, where the source converts to `float`. The two agree for every two-place amount the 10-digit column can hold.
- Payments.InitializePayment: an absent `FRONTEND_URL` makes the source raise, where the model gives a configuration error. Either way no payment is stored. The request key is taken as a number; a key that is not one makes the source's lookup raise a server error. The gateway is told the raw amount, and what it does with it is outside the model.
- Payments.ApplyWrite: no view writes a payment through its serializer; the serializer only renders payments. The write is modelled for the read-only rules it states.
- Accounts.UpdateServicemanProfile: reports only the first failing field, where the serializer lists every failing field. A JSON null for `bio` or `phone_number` and a malformed `is_available` or `skill_ids` are refused by the serializer with a 400; the model takes those fields as already parsed.
- Workflow.FoldRating: its contract states only that the result has two places. Its range and averaging properties are the lemmas `FoldRatingFirstJob`, `FoldRatingBetween` and `FoldRatingScenario`.
- Inbox.Send: an id posted as numeric text is read as its number, so the text `"0"`, which Python finds truthy and the source would look up and answer with a 404, is treated like the number 0 and reported missing.
- Inbox.InboxOf: orders by insertion rather than by `created_at`. `InboxNewestFirst` shows the two orders agree for a log appended in time order. Ties in `created_at` may come out in another order.
- Neither the webhook nor verify touches a service request: `Payments` takes no request state to change.
- Category writes need an administrator (apps/services/views.py:30-33). This role check is not modelled.

## Findings

| source | as written | input that shows it | evidently intended | confidence | as-written member | corrected member |
|---|---|---|---|---|---|---|
| apps/services/workflow_views.py:139 | `except (ValueError, decimal.InvalidOperation)` names a module the file never imports. A bad estimate raises `NameError`, which becomes a 500. The same happens for a bad markup at line 232. | estimated_cost = -5, or markup_percentage = 150 | a 400 "Invalid estimated_cost" or "Invalid markup_percentage" response | not executed | Workflow.ParseEstimateAsWritten, Workflow.ParseMarkupAsWritten, Workflow.BadNumbersAreServerErrors | Workflow.ParseEstimate, Workflow.ParseMarkup, Workflow.ParsersDifferOnlyInErrorCode |
| apps/services/signals.py:51-66 | The tracker looks only at the primary serviceman. Entering IN_PROGRESS never marks the backup busy, and completing a job never frees it. It also marks the primary busy on a soft-deleted request. | a backup serviceman on a request that is authorized, or whose only in-progress request is completed | every serviceman named before or after the save is reconciled, so "busy" means "has a live active request" | not executed | Availability.UpdateAvailabilityAsWritten, Availability.BackupLeftBusyAsWritten, Workflow.BackupLeftAvailableAsWritten | Availability.UpdateAvailability, Availability.UpdateAvailabilityKeepsConsistent, Availability.BackupFreedWhenCorrected, Workflow.BackupBusyWhenCorrected |
| apps/payments/views.py:60-64 | The fee is chosen by Python truthiness of the posted `is_emergency`, while the column stores the boolean field's reading of the same value. | is_emergency = "False" | the fee follows the stored flag, so the amount and the flag agree | not executed | Payments.InitializeBookingFee, Payments.FalseTextChargedEmergency | Payments.InitializeBookingFeeCorrected, Payments.CorrectedFeeMatchesFlag |
| apps/services/views.py:134 | `raise permissions.PermissionDenied()` looks the exception up in `rest_framework.permissions` (imported at line 1), which does not define it. The lookup raises `AttributeError`, so a refused reader gets a 500. | a CLIENT opening another client's request | a 403 from `rest_framework.exceptions.PermissionDenied` | not executed | Visibility.RetrieveRequestAsWritten, Visibility.OtherClientGetsServerError | Visibility.RetrieveRequest, Visibility.RetrieveDiffersOnlyInRefusal, Visibility.ListAgreesWithDetail |
