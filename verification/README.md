# Models of the admin API's self-contained logic

This project models the parts of the admin API that hold unbounded properties of their own, and
proves those properties. `dafny verify dfyconfig.toml` checks everything.

| files | what they model |
|---|---|
| `PdfWriter`, `PdfReader`, `PdfIndex`, `PdfPath`, `PdfRoundTrip` | the hand-written PDF printer, an independent reader after ISO 32000-1 (sections 7.3.4.2, 7.3.7, 7.3.8.2, 7.5.4, 7.5.5, 7.7.2, 7.7.3 and 9.4), and the proof that one inverts the other |
| `Csv`, `Report` | the CSV printer with an RFC 4180 style reader (LF records), and the report that prints the same rows both ways |
| `AuthModel`, `AuthService`, `AuthRuns`, `AuthPasswords`, `AuthFlows`, `AuthAnswers` | users and tokens in admin authentication and user management: the tables, the services as a class, what holds over runs, where passwords come from, exactly when each flow completes, and what each call answers and does to each row |
| `RateLimiter` | the fixed-window limiter over expiring counters |
| `WorkflowModel`, `WorkflowService`, `WorkflowRoundTrip`, `WorkflowRuns`, `WorkflowViews` | workflow templates over three tables, alone and over sequences of calls, and the two views of pending work |
| `CbnLimits`, `CbnLedger` | the quarterly and yearly caps, checked against a ledger of calendar quarters, and the split of a disbursement |
| `RegistryModel`, `RegistryService`, `RegistryRuns`, `RegistryEffects` | branches, pick-up stations and agents: uniqueness over runs, and exactly what each operation achieves |
| `AgentVolumes`, `Dashboard`, `Sla`, `Tickets` | totals computed in two ways, histograms, rounding, and the ticket log |
| `Text`, `Decimal`, `MapSums` | shared vocabulary: strings, numerals, sums over maps |

How the models are built:

- What the service does by changing tables is a class whose methods are proved equal to a function
  from the old state to the new one; the theorems are about that function and about runs of it.
- Text is a sequence of UTF-8 bytes, one `char` per byte, so byte lengths are sequence lengths; where
  the code counts UTF-16 units, so does the model. Case folding covers ASCII letters.
- Hashing is ideal: `Hashed(x)` matches `x` and nothing else. Texts drawn at random are parameters.
- Every service call is one atomic step. Time, and the order in which the database lists rows for the
  token searches, are inputs.
- Amounts are exact (`real`).

What the proofs found out about the code:

- PDF: a carriage return in a line is read back as a line feed (literal strings normalise line ends),
  so a line comes back unchanged exactly when it has none. Cross-reference entries have 20 bytes
  exactly while offsets stay below 10^10; the entry of the page contents always does.
- Rate limiter: a sliding interval as long as the window admits at most 2·limit − 1 calls, one less
  than twice the limit, and one limit more for every reset in the interval; both are reached. A window
  that is not positive limits nothing.
- Tokens: the only way to a first password is the OTP that `addUser` sends, exchanged within ten
  minutes for a token that is used within another ten. From then on `forgotPassword` sends such a user
  WELCOME OTPs only, which nothing accepts, so a user who missed the invitation never gets a password.
  A submitted OTP is held against every active OTP that the database lists before the one it fits: a
  wrong one against all of them, so that five by anybody lock all that are open, and a right one against
  those of other users listed before its own. The text of a login OTP is never free again: a login fails with a conflict exactly if its
  digits were sent before, to anybody at any time, so no more can ever be sent than there are texts to draw.
- Agents: the service's update does not check empty texts for duplicates, so an empty e-mail or phone
  number which another agent has would get past its checks and fail in the database. Its only caller, the
  controller (src/modules/admin/controllers/agent.controller.ts:210-244), turns blank texts into missing
  ones, so no request reaches this.
- Workflow: the schema's unique pair of stage and admin makes a call fail that names an admin twice
  in a stage; earlier writes stay, and on an update the old stages are gone.
- Stats and list: the rejected totals agree as long as no agent has the id `__none__`.
- CSV: the final newline that streaming adds reads as one more record of an empty field. It is mistaken
  for a row exactly in tables of one column (where a row with an empty cell prints the same) or of none.
- Volumes: Prisma returns decimal objects, which are truthy when zero, so the two totals agree for
  all tables, including zero amounts.

## Model

| member | source | states |
|---|---|---|
| PdfWriter.BuildSimplePdf | src/modules/admin/services/report.service.ts:62-108 | the loops that collect operators, objects and offsets print the document whose layout and meaning the rows below prove |
| PdfWriter.AppendObjects | src/modules/admin/services/report.service.ts:90-95 | every recorded offset is the length of what precedes the object |
| PdfWriter.EscapeIsSimultaneous | src/modules/admin/services/report.service.ts:58-60 | three sequential replacements amount to one character-wise substitution |
| PdfRoundTrip.EscapedHasNoBareParen | src/modules/admin/services/report.service.ts:58-60 | no parenthesis is left unescaped and no escape pair is cut short |
| PdfRoundTrip.DecodeEscaped | src/modules/admin/services/report.service.ts:58-75 | decoding a literal string inverts escaping up to line-end normalisation and stops exactly at the closing parenthesis, whatever follows |
| PdfReader.NormalisedIffNoCr | src/modules/admin/services/report.service.ts:58-60 | a text comes back unchanged exactly when it has no carriage return |
| PdfRoundTrip.ReadShowText | src/modules/admin/services/report.service.ts:73-75 | a Td and Tj pair moves the line start by its operands and shows the line there |
| PdfRoundTrip.ReadContent | src/modules/admin/services/report.service.ts:70-79 | the content stream shows the kept lines, one per line height, from the top of the page |
| PdfIndex.HeaderAtOffset | src/modules/admin/services/report.service.ts:81-95 | at the recorded offset of object i the file reads "i 0 obj" |
| PdfIndex.StartXrefFound | src/modules/admin/services/report.service.ts:97-105 | startxref leads to the byte where "xref" stands |
| PdfIndex.EntryReadsBack | src/modules/admin/services/report.service.ts:99-103 | an entry has 20 bytes exactly when its offset is below 10^10, and then parses back to it |
| PdfIndex.LookUpIffFits | src/modules/admin/services/report.service.ts:97-103 | the table yields the offset of an object exactly when it fits the field, if the entries before it fit |
| PdfIndex.TableLeadsToObjects | src/modules/admin/services/report.service.ts:91-103 | the table leads to objects 1 to 4 in every file, and to object 5 exactly below 10^10 |
| PdfIndex.FreeListIsEmpty | src/modules/admin/services/report.service.ts:97-99 | entry 0 is the head of an empty free list with generation 65535 |
| PdfIndex.StreamIsRecovered | src/modules/admin/services/report.service.ts:87 | /Length delimits exactly the stream, followed by endstream |
| PdfPath.PathLeadsToPage | src/modules/admin/services/report.service.ts:81-105 | in every file the trailer leads through /Root, /Pages and /Kids to the page, each found through the cross-reference table; its /Contents are object 4, its font F1 is object 5 and its /MediaBox is [0 0 612 792] |
| PdfPath.SizeCountsObjects | src/modules/admin/services/report.service.ts:104 | /Size in the trailer is one more than the number of objects |
| PdfPath.FontFoundIff | src/modules/admin/services/report.service.ts:88-103 | object 5 is found as Helvetica exactly if its offset is below 10^10 |
| PdfRoundTrip.ReadInvertsPrint | src/modules/admin/services/report.service.ts:62-108 | for every list of lines the reader that follows this path finds the kept lines at their places, in ten point of font object 5, on a page of 612 by 792 |
| PdfRoundTrip.LinesAreOnThePage | src/modules/admin/services/report.service.ts:63-85 | every line that is shown starts inside the page box |
| PdfRoundTrip.PageContents | src/modules/admin/services/report.service.ts:65-77 | min(n, 50) lines, line i at (48, 760 - 14 i), none below 48, unchanged exactly when free of carriage returns |
| Csv.RenderedValues | src/shared/utils/csv.ts:8-24 | null and numbers that are not finite print as nothing, booleans as true and false, texts and finite numbers as they are |
| Csv.CellReadsBack | src/shared/utils/csv.ts:8-27 | every cell parses back to its rendering, with quotes, commas and newlines in it |
| Csv.StreamCsv | src/shared/utils/csv.ts:29-43 | what is streamed is the whole CSV text and one more newline, with the two headers set and the response ended |
| Csv.TableReadsBack | src/shared/utils/csv.ts:45-52 | joined records parse back record by record |
| Csv.CsvRoundTrip | src/shared/utils/csv.ts:8-52 | headers and cells are recovered exactly when there is at least one column |
| Csv.StreamedReadsBack | src/shared/utils/csv.ts:29-43 | the streamed text reads back as the table and one record of an empty field, exactly when there is a column |
| Csv.FinalNewlineIff | src/shared/utils/csv.ts:37-41 | two lists of rows differ by that newline only exactly if one renders as the other and a row of one empty cell, which takes one column, or has one row more and there are no columns |
| Report.ClipOfEncoded | src/modules/admin/services/report.service.ts:187-190 | on the UTF-8 bytes of a text, clipping is slicing by UTF-16 units, with U+FFFD for half of a surrogate pair |
| Report.UnitsOfEncoded | src/modules/admin/services/report.service.ts:187-190 | the units counted on UTF-8 bytes are the UTF-16 length of the text |
| Report.ClipIsPrefix | src/modules/admin/services/report.service.ts:187-190 | slicing gives a prefix, up to half of a character at the cut |
| Report.ClipIff | src/modules/admin/services/report.service.ts:187-190 | slicing keeps n UTF-16 units or as many as there are, and the whole text exactly if it has no more |
| Report.ReportsAgree | src/modules/admin/services/report.service.ts:153-196 | the CSV has one record of eight named fields per action and the PDF shows module, range, field names and one line of five fields per action, four cut by UTF-16 units, up to 50 lines; both told from the rows of the table |
| AuthService.AdminAuthService.FindActive | src/modules/admin/services/admin-auth.service.ts:242-255 | lists exactly the active tokens of a search, each once |
| AuthService.AdminAuthService.FindMatch | src/modules/admin/services/admin-auth.service.ts:350-358 | the search loop finds the first listed token that fits |
| AuthService.AdminAuthService.MatchOtp | src/modules/admin/services/admin-auth.service.ts:257-273 | the OTP loop counts a mismatch for every token before the match |
| AuthService.AdminAuthService.VerifyOldPassword | src/modules/admin/services/admin-auth.service.ts:24-67 | refuses missing users, unset and wrong passwords without a write; otherwise uses up the open change tokens and issues one for ten minutes |
| AuthService.AdminAuthService.SubmitPasswordChange | src/modules/admin/services/admin-auth.service.ts:69-134 | refuses the old password and unknown or expired tokens; otherwise sets the password and uses up the match and all other change tokens, whatever order the database lists them in |
| AuthService.AdminAuthService.ForgotPassword | src/modules/admin/services/admin-auth.service.ts:136-199 | answers alike for unknown e-mails and within a minute of an OTP; otherwise uses up all open OTPs and issues one whose purpose depends on whether a password is set |
| AuthService.AdminAuthService.ValidateResetOtp | src/modules/admin/services/admin-auth.service.ts:239-331 | records a mismatch for every OTP before the match, locks at five, refuses other purposes, and otherwise exchanges the OTP for the only open reset token of its user |
| AuthService.AdminAuthService.SubmitNewPassword | src/modules/admin/services/admin-auth.service.ts:334-403 | sets the password of the owner of the matching token, activates owners without one, and uses up all their reset and change tokens |
| AuthService.AdminAuthService.InitiateLogin | src/modules/admin/services/admin-auth.service.ts:405-443 | needs the right password; uses up open login OTPs and stores a plain one, unless the text is taken, which is a conflict after the invalidation |
| AuthService.AdminAuthService.VerifyLogin | src/modules/admin/services/admin-auth.service.ts:445-530 | uses up the one active login OTP of the user with this text, or refuses |
| AuthService.AdminAuthService.ResendLoginOtp | src/modules/admin/services/admin-auth.service.ts:532-579 | does nothing while an unused login OTP is younger than a minute, and otherwise replaces it |
| AuthRuns.StepLater | src/modules/admin/services/admin-auth.service.ts:24-579 | no step clears a use flag, lowers an attempt counter, deletes a token or a user, changes the origin of a token or takes a password away |
| AuthRuns.UsedUpByOwner | src/modules/admin/services/admin-auth.service.ts:43-570 | a token is used up only by calls that serve its owner, by a conflicting login of its owner, or by the right text once it is locked |
| AuthRuns.StepIssues | src/modules/admin/services/admin-auth.service.ts:24-579 | a step adds at most one token, for the user and purpose of the call, stored for the text its caller gets, with its lifetime |
| AuthRuns.StepConsumes | src/modules/admin/services/admin-auth.service.ts:69-504 | what a call uses up was active, of the right kind and purpose, and stored for the submitted text |
| AuthRuns.InvariantAlong | src/modules/admin/services/admin-auth.service.ts:43-570 | in every reachable state a user has at most one unused login OTP, other OTP, change token and reset token; plain texts, ids and e-mails are unique |
| AuthRuns.LaterAlong | src/modules/admin/services/admin-auth.service.ts:257-273 | over whole runs use flags and attempt counters only grow |
| AuthRuns.Provenance | src/modules/admin/services/admin-auth.service.ts:24-579 | whatever is used up was issued earlier in the run to the same user, by this service or by addUser, as the very text submitted, and is not expired |
| AuthRuns.SubmitNewPasswordProvenance | src/modules/admin/services/admin-auth.service.ts:334-403 | a new password needs a token handed out to that user less than ten minutes earlier by validateResetOtp, or by verifyOldPassword for the password the user had then |
| AuthRuns.ValidateResetOtpProvenance | src/modules/admin/services/admin-auth.service.ts:239-331 | a reset token needs an OTP that forgotPassword or addUser sent to that user less than ten minutes earlier |
| AuthRuns.SubmitPasswordChangeProvenance | src/modules/admin/services/admin-auth.service.ts:24-134 | a password change needs a verifyOldPassword less than ten minutes earlier, with the password the user had then |
| AuthRuns.VerifyLoginProvenance | src/modules/admin/services/admin-auth.service.ts:405-504 | a login needs a login OTP sent to that user less than five minutes earlier, by initiateLogin for the password the user had then or by resendLoginOtp |
| AuthRuns.ConsumedOnce | src/modules/admin/services/admin-auth.service.ts:299-325 | no token is used up twice in a run |
| AuthRuns.LockedOtpStaysLocked | src/modules/admin/services/admin-auth.service.ts:279-287 | an OTP with five recorded mismatches never yields a reset token afterwards |
| AuthRuns.ForgotPasswordSpacing | src/modules/admin/services/admin-auth.service.ts:147-157 | forgotPassword sends nothing within a minute of any OTP to the same user |
| AuthRuns.ResendSpacing | src/modules/admin/services/admin-auth.service.ts:537-548 | a login OTP is resent only if those of the last minute have been used up |
| AuthPasswords.AddedUserIsPending | src/modules/admin/services/user-management.service.ts:16-127 | exactly when a user is added, that nothing else in the tables changes but the OTP, and that no password logs the user in |
| AuthPasswords.UpdatedUserReads | src/modules/admin/services/user-management.service.ts:247-345 | exactly when an update or a toggle of the active flag succeeds, that the e-mail then leads to this user, and that password and other users stay |
| AuthPasswords.SeededAdminLogsIn | src/modules/admin/services/admin.service.ts:314-332 | a seeded admin logs in with the given password only, and seeding again changes nothing |
| AuthPasswords.PasswordChangeUsesToken | src/modules/admin/services/admin-auth.service.ts:104-397 | a password changes only in a call that uses up a token of its owner, to the submitted text; only updateUser, toggleUserActive and a first password change the active flag |
| AuthPasswords.FirstPasswordProvenance | src/modules/admin/services/user-management.service.ts:94-129 | a first password comes from the OTP of addUser, exchanged less than ten minutes later for the token that was used less than ten minutes after that, and activates the user |
| AuthPasswords.FirstPasswordIff | src/modules/admin/services/admin-auth.service.ts:158-397 | from any reachable state some continuation gives a user without a password one exactly while a reset token or an unlocked reset OTP is open for that user |
| AuthPasswords.InvitationLapses | src/modules/admin/services/admin-auth.service.ts:158-190 | from twenty minutes after addUser on, no continuation gives a user a first password |
| AuthFlows.CountsExactly | src/modules/admin/services/admin-auth.service.ts:257-273 | a submitted OTP, right or wrong, adds one attempt exactly to the OTPs that are listed before the first one it fits, and changes nothing else |
| AuthFlows.WrongOtpCountsEverywhere | src/modules/admin/services/admin-auth.service.ts:259-269 | a wrong OTP adds one attempt to every active OTP and changes nothing else |
| AuthFlows.RightOtpCanCount | src/modules/admin/services/admin-auth.service.ts:257-273 | any active OTP that the submitted one does not fit gains an attempt in some listing, even if the call succeeds for another |
| AuthFlows.AttemptsAddUp | src/modules/admin/services/admin-auth.service.ts:257-273 | over a run the attempts of a token are exactly the submitted OTPs that passed it, whoever they were meant for |
| AuthFlows.WrongOtpsAddUp | src/modules/admin/services/admin-auth.service.ts:257-273 | every OTP that fits nothing is among those that are counted against an OTP that stays open |
| AuthFlows.FiveWrongOtpsLock | src/modules/admin/services/admin-auth.service.ts:257-287 | five wrong OTPs by anybody, whatever comes in between, keep every OTP that was open before them from being exchanged |
| AuthFlows.SubmitNewPasswordIff | src/modules/admin/services/admin-auth.service.ts:337-368 | the call succeeds exactly when some active token was stored for the submitted text |
| AuthFlows.LoginMatchIsUnique | src/modules/admin/services/admin-auth.service.ts:487-495 | the database has at most one row to choose from |
| AuthFlows.SentOtpIsExchanged | src/modules/admin/services/admin-auth.service.ts:136-331 | over runs, whatever comes in between: within ten minutes the OTP of forgotPassword or addUser is exchanged exactly if it was sent for a reset, is unused, was passed fewer than five times since, and is listed before any other active OTP with its text |
| AuthFlows.ExchangeCertainIff | src/modules/admin/services/admin-auth.service.ts:239-331 | in every listing the OTP is the one exchanged exactly if it is for a reset, unused, not locked, and no other active OTP has its text |
| AuthFlows.ResetTokenSetsPassword | src/modules/admin/services/admin-auth.service.ts:299-397 | over runs: within ten minutes a token of validateResetOtp or verifyOldPassword sets exactly its owner's password, exactly if it is unused by then and listed before any other active token with its text |
| AuthFlows.ChangeTokenSetsPassword | src/modules/admin/services/admin-auth.service.ts:24-134 | over runs: within ten minutes a change token sets exactly its owner's password, exactly if it is unused by then, both texts are given and the password is a different one; its owner has no other open change token |
| AuthFlows.ResetThenLogin | src/modules/admin/services/admin-auth.service.ts:136-443 | OTP, exchange, new password and login with any other calls in between, as long as OTP and token are unused, not locked and listed before others with their text: the login is refused exactly for passwords other than the new one |
| AuthFlows.LoginConflictIff | src/modules/admin/services/admin-auth.service.ts:414-436 | a login OTP is refused exactly if the same text was sent before in the run, to anybody |
| AuthFlows.LoginOtpsRunOut | src/shared/utils/id-generator.ts:14-21 | no login OTP text is sent twice, so a run sends at most as many as there are texts to draw |
| AuthFlows.LoginOtpOpensLogin | src/modules/admin/services/admin-auth.service.ts:405-504 | over runs: within five minutes a login OTP opens the login exactly if it is unused by then and comes with an e-mail of its owner |
| AuthAnswers.VerifyOldPasswordAnswers | src/modules/admin/services/admin-auth.service.ts:24-67 | a change token for ten minutes is issued exactly for the stored password of an existing user; every refusal has its error and leaves the tables alone |
| AuthAnswers.SubmitPasswordChangeAnswers | src/modules/admin/services/admin-auth.service.ts:69-134 | exactly when the change succeeds, and which error it has otherwise |
| AuthAnswers.ForgotPasswordAnswers | src/modules/admin/services/admin-auth.service.ts:136-199 | an OTP for ten minutes is sent exactly to a known e-mail without an OTP in the last minute, for a reset if a password is set and as a WELCOME otherwise |
| AuthAnswers.ValidateResetOtpAnswers | src/modules/admin/services/admin-auth.service.ts:239-331 | the new reset token of an accepted OTP, and one error for every refused one |
| AuthAnswers.SubmitNewPasswordAnswers | src/modules/admin/services/admin-auth.service.ts:334-403 | succeeds exactly if an active token was stored for the text, and changes nothing otherwise |
| AuthAnswers.InitiateLoginAnswers | src/modules/admin/services/admin-auth.service.ts:405-443 | unknown e-mails, wrong passwords and taken texts have their errors, and everything else sends an OTP for five minutes |
| AuthAnswers.VerifyLoginAnswers | src/modules/admin/services/admin-auth.service.ts:445-530 | succeeds exactly for an unused and unexpired login OTP of the user with the e-mail |
| AuthAnswers.ResendLoginOtpAnswers | src/modules/admin/services/admin-auth.service.ts:532-579 | sends again exactly to a user with a password and no unused login OTP younger than a minute |
| AuthAnswers.TokensAfter | src/modules/admin/services/admin-auth.service.ts:43-570 | exactly which tokens every call uses up and with what time, and that nothing else about a token changes but its attempts |
| RateLimiter.RedisRateLimiter.CheckLimit | src/shared/middleware/rate-limiter.ts:39-47 | a call is admitted exactly while fewer than limit calls were counted, the first call of a lifetime sets its expiry, and other keys are untouched |
| RateLimiter.RedisRateLimiter.GetRemainingAttempts | src/shared/middleware/rate-limiter.ts:49-53 | limit minus the live count, not below zero |
| RateLimiter.RedisRateLimiter.ResetLimit | src/shared/middleware/rate-limiter.ts:55-57 | only this key is dropped, and it has all its attempts again |
| RateLimiter.RemainingPredicts | src/shared/middleware/rate-limiter.ts:39-53 | a call is admitted exactly when attempts remain, and costs one |
| RateLimiter.SlidingGuarantee | src/shared/middleware/rate-limiter.ts:39-57 | every half-open interval as long as the window has at most 2 limit - 1 accepted calls of a key and limit more for each reset of the key in it, in every run over all keys in which no check of the key asks for a larger limit or a shorter window |
| RateLimiter.GuaranteeIsSharp | src/shared/middleware/rate-limiter.ts:39-57 | for windows of at least two time units and any number of resets a run reaches that bound |
| RateLimiter.LifetimeAcceptsLimit | src/shared/middleware/rate-limiter.ts:39-57 | with one limit for a key, each lifetime of it accepts exactly min(limit, calls), whatever the windows and resets |
| RateLimiter.NoWindowNoLimit | src/shared/middleware/rate-limiter.ts:42-44 | with windows that are not positive every call with a positive limit is accepted |
| WorkflowService.Service.CreateTemplate | src/modules/admin/services/workflow.service.ts:197-235 | inserts an active template with its stages and assignees, and says Done exactly if nothing was refused on the way |
| WorkflowService.Service.SaveDraft | src/modules/admin/services/workflow.service.ts:237-275 | the same as a draft |
| WorkflowService.Service.UpdateTemplate | src/modules/admin/services/workflow.service.ts:319-353 | edits the row, and if stages are given deletes the old ones with their assignees and writes the new ones; fails without a write for a missing template |
| WorkflowService.Service.PublishTemplate | src/modules/admin/services/workflow.service.ts:355-362 | sets the status of an existing template and fails for a missing one |
| WorkflowService.Service.CreateStages | src/modules/admin/services/workflow.service.ts:212-232 | the nested loops write the stages up to the first refused assignee |
| WorkflowRoundTrip.CreateReadsBack | src/modules/admin/services/workflow.service.ts:197-235 | exactly when it succeeds and which error it has otherwise, column by column what getTemplate reads afterwards, and that other templates read the same |
| WorkflowRoundTrip.UpdateReadsBack | src/modules/admin/services/workflow.service.ts:319-353 | exactly when it succeeds and which error it has otherwise, the columns as requested, with name and type as before if missing, stages kept if omitted, other templates unchanged |
| WorkflowRoundTrip.RequestedWhenAccepted | src/modules/admin/services/workflow.service.ts:212-230 | with nothing refused every stage is there, in order, with defaults and the same multiset of assignees |
| WorkflowRoundTrip.StageAcceptedIff | src/modules/admin/services/workflow.service.ts:222-231 | a stage is refused exactly when it names an unknown admin or one twice |
| WorkflowRoundTrip.PublishReadsBack | src/modules/admin/services/workflow.service.ts:355-362 | only the status of one template reads differently |
| WorkflowRoundTrip.DraftThenPublish | src/modules/admin/services/workflow.service.ts:237-362 | a saved and published draft leaves the same tables as creating the template |
| WorkflowRuns.ValidOverRuns | src/modules/admin/services/workflow.service.ts:197-362 | over every sequence of calls ids stay unique, foreign keys point to rows and stages stay in order |
| WorkflowRuns.LastWriteIsRead | src/modules/admin/services/workflow.service.ts:197-362 | getTemplate reads what the last create, update or publish of a template left, whatever happens to other templates afterwards |
| WorkflowRoundTrip.ReadsInOrder | src/modules/admin/services/workflow.service.ts:294-317 | sorting by order returns the stages as they were written |
| WorkflowViews.List | src/modules/admin/services/workflow.service.ts:60-195 | a page of exactly the rows with the wanted status and group whose title, action or group has the trimmed search in any case, as they are shown, in the order of the tables; total and page count |
| WorkflowViews.PendingAgrees | src/modules/admin/services/workflow.service.ts:22-78 | the unfiltered pending total of list equals the pending counter of stats |
| WorkflowViews.CompletedAgrees | src/modules/admin/services/workflow.service.ts:22-83 | the same for completed |
| WorkflowViews.RejectedAgrees | src/modules/admin/services/workflow.service.ts:22-88 | the same for rejected, up to agents whose id is the impossible one |
| WorkflowViews.PagesMakeUpTheList | src/modules/admin/services/workflow.service.ts:190-194 | pages 1 to totalPages concatenate to the list, all but the last are full, the last is not empty, none follows |
| CbnLimits.TransactionLimitTable.CheckTransactionLimits | src/shared/middleware/cbn-compliance.ts:61-172 | creates the missing record of the quarter, then checks the quarterly cap before the yearly one, and reports what is left |
| CbnLimits.LimitsHold | src/shared/middleware/cbn-compliance.ts:84-158 | over every run one record per key, every quarter within its cap and every year within its cap |
| CbnLimits.FourQuartersBound | src/shared/middleware/cbn-compliance.ts:109-122 | a year's usage is at most its own quarter's plus three quarterly caps |
| CbnLimits.YearlyRefusalNeedsEqualCaps | src/shared/middleware/cbn-compliance.ts:12-45 | the yearly refusal occurs only for SCHOOL_FEES and PROFESSIONAL_BODY |
| CbnLimits.YearlyRefusalHappens | src/shared/middleware/cbn-compliance.ts:142-158 | and for both of these it does occur |
| CbnLedger.ChecksFollowTheLedger | src/shared/middleware/cbn-compliance.ts:61-172 | after any run a check is refused exactly if the amounts recorded in the same calendar quarter, or year, leave no room under the caps, and reports what is left of both |
| CbnLedger.LedgerWithinCaps | src/shared/middleware/cbn-compliance.ts:74-158 | over every run the recorded amounts of each calendar quarter and of each year stay within the caps |
| CbnLimits.AcceptedSplit | src/shared/middleware/cbn-compliance.ts:182-223 | for all inputs: a split passes exactly within a cent and 26 percent, which bounds cash and card by the amount; anything else passes except a cash pickup above 500 without card part |
| RegistryService.Registry.CreateBranch | src/modules/admin/services/outlet.service.ts:803-884 | refuses taken names and e-mails in any case; otherwise adds the branch and attaches or creates its initial agent, ignoring an agent insert that lacks a contact |
| RegistryService.Registry.UpdateBranch | src/modules/admin/services/outlet.service.ts:892-960 | gathers a patch of trimmed fields, refuses names and e-mails of other branches and empty patches, and writes the patch and nothing else |
| RegistryEffects.TrimmedField | src/modules/admin/services/outlet.service.ts:892-960 | a field of a body counts as its text without white space at the ends, and as empty if it is null or missing |
| RegistryEffects.FoldedIff | src/modules/admin/services/outlet.service.ts:803-840 | names and e-mails are the same exactly up to the case of ASCII letters |
| RegistryEffects.CreatedBranchReads | src/modules/admin/services/outlet.service.ts:803-884 | exactly when a branch is created and which error it has otherwise, and that only its row is added and at most one agent, by its contacts, is moved, or added with the given name |
| RegistryEffects.UpdatedBranchReads | src/modules/admin/services/outlet.service.ts:892-960 | succeeds exactly if no other branch has the wanted texts and something is to be written; then the wanted name leads to this branch and the other rows are as before |
| RegistryEffects.AddedAgentsMove | src/modules/admin/services/outlet.service.ts:1267-1295 | exactly if branch and agents exist the branch gets exactly the named agents and every other branch loses exactly them; otherwise nothing changes |
| RegistryEffects.CreatedStationIsDeleted | src/modules/admin/services/outlet.service.ts:1060-1096 | created exactly with its texts given and unused in any case; it gets an unused id and the trimmed texts, and deleting it restores the stations of before |
| RegistryService.Registry.UpdatePickupStation | src/modules/admin/services/outlet.service.ts:1109-1160 | the step-by-step patch amounts to one conditional write, refusing before any change; the next row says what it achieves |
| RegistryEffects.UpdatedStationReads | src/modules/admin/services/outlet.service.ts:1109-1160 | succeeds exactly if no other station has the wanted texts and something changes; then the station has them, in its own spelling where only the case differs, and the others are as before |
| RegistryEffects.DeletedStationFreesTexts | src/modules/admin/services/outlet.service.ts:1162-1172 | the texts of a station are refused until it is deleted and accepted afterwards, in any case; the other stations stay |
| RegistryService.Registry.CreateAgent | src/modules/admin/services/agent.service.ts:422-473 | the single lookup for e-mail or phone decides the two duplicate checks |
| RegistryEffects.CreatedAgentIsFound | src/modules/admin/services/agent.service.ts:422-473 | succeeds exactly with all texts, free contacts and a known branch in any case; then each contact alone leads to the new agent of that branch |
| RegistryService.Registry.UpdateAgent | src/modules/admin/services/agent.service.ts:298-378 | writes the given texts, empty ones too, after checking the others for duplicates; the unique columns decide about empty ones |
| RegistryEffects.UpdatedAgentReads | src/modules/admin/services/agent.service.ts:298-378 | succeeds exactly if the update is proper and no other agent has a given e-mail or phone, even an empty one; then the texts are read back and other rows stay |
| RegistryRuns.UniqueOverRuns | src/modules/admin/services/outlet.service.ts:803-1295 | over every sequence of operations names, e-mails and phones stay distinct and agents point to existing branches |
| RegistryEffects.DatabaseConflictIff | src/modules/admin/services/agent.service.ts:307-342 | for any caller of the service, the unique columns are reached exactly by a proper update with free contacts that writes an empty e-mail or phone which another agent has; the present caller (agent.controller.ts:238-244) passes no empty text |
| RegistryEffects.DatabaseConflictHappens | src/modules/admin/services/agent.service.ts:307-342 | five calls of the service reach that conflict, two of them with an empty e-mail, which agent.controller.ts:210-244 never passes on |
| RegistryEffects.RequestsNeverConflict | src/modules/admin/controllers/agent.controller.ts:210-244 | through the controller, which drops blank texts, no update reaches the conflict, and it succeeds exactly if it names something, agent and branch exist and the contacts are free |
| RegistryRuns.CreatedBranchIsFound | src/modules/admin/services/agent.service.ts:445-459 | the name of a new branch resolves to it in any case, also for agents created under it |
| RegistryRuns.InitialAgentAttached | src/modules/admin/services/outlet.service.ts:841-875 | the new branch gets an agent exactly when a name is given and either both contacts are or somebody has one of them |
| AgentVolumes.ListVolumes | src/modules/admin/services/agent.service.ts:123-143 | the loop agrees with count and aggregates for every agent of the page, and its counts add up to the rows visited |
| AgentVolumes.AggregatedSnoc | src/modules/admin/services/agent.service.ts:275-293 | each row adds its value to exactly one of the three aggregates |
| Dashboard.YearSeries | src/modules/admin/services/admin.service.ts:62-77 | 36 buckets with their filtered counts, by month and in total conserving the number of transactions |
| Dashboard.TypeTotals | src/modules/admin/services/admin.service.ts:79-87 | one total per type, adding up to the total amount |
| Sla.CountReviews | src/modules/admin/services/regulatory.service.ts:70-82 | on-time reviews are those within a day plus nine tenths of the rest that was not sampled, rounded down; on-time and late add up to the larger of sample and total |
| Sla.RateIsAccurate | src/modules/admin/services/regulatory.service.ts:83-85 | the rate is in 0..100 and within 0.05 of the exact percentage, for all counts |
| Tickets.CreatedTicketIsOpen | src/modules/admin/services/tickets.service.ts:216-241 | a new ticket is open, has an unused id and no notes, and the others stay |
| Tickets.UpdateLeavesItsNote | src/modules/admin/services/tickets.service.ts:399-437 | an update sets one status and adds exactly the note of the change; OPEN leaves one only after RESOLVED or CLOSED; missing tickets change nothing |
| Tickets.LastNoteTellsStatus | src/modules/admin/services/tickets.service.ts:399-437 | over every run the last note of a ticket stands for its status, or the ticket was reopened without a note after an acknowledgement |
| Tickets.ReopensAnswerEndings | src/modules/admin/services/tickets.service.ts:412-434 | at every prefix of the automatic log reopen notes never exceed resolved plus closed notes |
| Tickets.NotesAreUpdates | src/modules/admin/services/tickets.service.ts:399-437 | the notes are the successful updates minus those to OPEN from OPEN or IN_PROGRESS |

## Left out

- Interleavings inside a call: each call is atomic. Two limit checks before either is recorded, or two
  uniqueness checks before either write, are not modelled.
- Font metrics and encoding: the reader returns the bytes that are shown and the name of their font.
- `AdminAuthService.resetPassword`: no controller calls it. JWTs, e-mails, events and logging.
- Phone numbers, roles, departments and permissions of users: what their lookups object to is an input
  of addUser and updateUser. The welcome mail itself.
- Prisma, Redis and bcrypt themselves; a Redis counter that loses its EXPIRE to a crash between two commands.
- `findFirst` where several rows fit takes the first in table order; for agents found by e-mail or phone
  the database could pick another.
- Arguments of list that are not positive page and limit numbers, and dates in its items.
- Attachments of agents and tickets, assignment and editing of tickets, the filters and paging of agent lists.
- Trimming and blank ids in addAgentsToBranch: ids arrive as row numbers. Trimming drops ASCII white space only,
  where JavaScript drops other white space too.
- Foreign keys of tables that are not modelled; those to admins, departments and franchises are.
- Floating point: amounts and percentages are exact, NaN and infinities do not occur. The trend of the SLA card.
- The `JSON.stringify` fallback of toCsvValue, and objects whose toISOString yields a text that needs quotes.
- The query that selects the rows of a report; KYC and document checks; listings, exports and the seed script,
  which does what seedAdminDefaults does.
