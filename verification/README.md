# AuditFlow back end: a verified model

AuditFlow runs an auditor's office: it keeps a customer master, takes work orders through a
six-state lifecycle, administers staff, issues invoices and signs users in. This project models
the parts of its back end where several rules meet, and proves what they guarantee.

- **Register import** (`HeaderMap`, `CustomerTable`, `CustomerImport`, `Sample*`, `Import*`). Two legacy
  registers are mapped column by column and upserted row by row. A row is matched by GST number,
  then PAN, mobile and e-mail; only blanks are filled; a new customer gets the next `CUS-` code.
  A run is a sequence of tables linked by `RowStep`, so every result holds for any choice among
  equally good matches. The importer's classes and loops are shown to follow such a run.
- **Office** (`Office`, `OfficeStore`, `OfficeServices`, `OfficeApi`, `OfficeLifecycle`,
  `OfficeNotifications`, `OfficeStaff`, `OfficeActivity`, `OfficeContacts`, `OfficeRights`,
  `OfficeEffects`, `OfficeTenancy`). Staff, work orders, timelines, notifications and the
  audit trail form one database. `Office.Handle` says what each request does to it; the services
  change mutable objects and are proved to do exactly that; the other modules prove properties of
  every run of requests.
- **Numbers** (`Text`, `Numbering`, `Allocation*`). The three "highest suffix plus one" generators,
  and their use by any number of concurrent creators, where reading and inserting are separate steps.
- **Sessions** (`Auth`, `AuthService`, `AuthProperties`, `AuthAccess`). Rotating refresh tokens, single-use reset
  tokens and password changes.
- **Invoices and slugs** (`Invoicing`, `Slug`). Money in cents, percentages in hundredths of a
  percent, one half-up rounding; and the probing loop for a free slug.

Where the code does less than its documentation says, the model follows the code and states
exactly when the promise holds:

- "Re-running never creates duplicates" holds for lines with a trimmed key. A line without one, or
  whose keys were cut at the column width behind a space, is created again
  (`CreatedAgainIffNotFindable`, `UnfindableLineIsDuplicated`); re-importing creates nothing exactly when
  every line finds its customer or no code can be drawn (`CreatesNothingIff`).
- "The migration is idempotent" does not hold after one run (`SecondRunMayUpdate`). An import leaves
  a table alone exactly when no line has a customer to create or a blank to fill in it
  (`ImportLeavesAloneIff`), and that is reached after boundedly many runs (`ImportConverges`).
- GST numbers stay unique exactly when they are trimmed, PAN numbers not even then
  (`GstSafeIffTrimmed`, `PanStaysUniqueIff`, `PanMayBecomeShared`).
- A work-order number may be given out a second time once orders are deleted. The number read next
  repeats one exactly when the newest ever issued for the day is gone (`NumberComesBackIff`,
  `DeletedNumberComesBack`); an insert repeats one exactly when its number is free and is not the one
  past the newest, which a late insert can do while the newest is still stored (`InsertRepeatsIff`,
  `LateInsertRepeats`). Invoices cannot be deleted, and their automatic numbers have no gap and no
  repeat under any interleaving (`StoredIsGapFree`).
- "At least one admin must exist" is lost by one kind of request only: a plain update that switches
  off the last active admin (`LastAdminLostIff`, `LastAdminMayGo`).
- Deletion is refused while a member holds active orders, but active orders may be handed to a
  member already deleted (`ActiveOrderOfDeletedIff`, `DeletedMayBeAssigned`).
- "Changing a password logs out every other session" holds of refresh tokens for users' own changes
  and resets, not when staff administration sets the password (`SessionsSurviveIff`,
  `StaffPasswordLeavesSession`). An access token issued earlier works until it expires in any case,
  as long as its user may act at all: no table records it.
  The rule that the new password must differ compares more than the 72 bytes the hash reads
  (`OldPasswordStillWorksIff`, `OldPasswordStillWorks`).

Conventions: identifiers, organizations and times are natural numbers; NULL is `None` or an absent
key; text is ASCII. A refused request leaves the state unchanged, as the rolled-back transaction does.

## Model

| member | source | states |
|---|---|---|
| Text.LowerForgetsCase | app/features/customers/seed.py:261 | two texts are equal in lower case if and only if they differ at most in the case of their letters |
| HeaderMap.MatchingIgnoresCase | app/features/customers/seed.py:261-270 | a header matches whatever the case of its letters |
| HeaderMap.OrderedHeaders | app/features/customers/seed.py:304-310 | the keys of all rows, each once, in order of first appearance |
| HeaderMap.BuildHeaderMap | app/features/customers/seed.py:258-278 | the nested loops compute the serial-greedy assignment: each field in turn takes the first unclaimed exact header, else the first unclaimed header containing an alias |
| HeaderMap.SerialGreedyUnique | app/features/customers/seed.py:258-278 | that rule leaves no freedom: two maps that follow it are equal |
| HeaderMap.HeaderMapInjective | app/features/customers/seed.py:258-278 | no column feeds two fields |
| HeaderMap.UnmappedIffAllTaken | app/features/customers/seed.py:264-277 | a field is unmapped exactly when strictly earlier fields claimed every column that fits it |
| HeaderMap.FieldAliasesDistinct | app/features/customers/seed.py:61-82 | the sixteen fields resolve each once, in the listed order |
| HeaderMap.ScoreHeaderRow | app/features/customers/seed.py:138-146 | counts the fields for which some non-empty cell holds an alias |
| HeaderMap.ScoreCountsFields | app/features/customers/seed.py:138-146 | the score is the number of distinct fields that some non-empty cell names |
| HeaderMap.FindHeaderRow | app/features/customers/seed.py:210-218 | the first best-scoring of the first fifteen rows, none exactly when no score exceeds one |
| HeaderMap.MapSizeAtMostScore | app/features/customers/seed.py:138-146 | a header map has at most as many fields as the same headers score |
| SampleHeaders.MixedHeadersMapped | app/features/customers/seed.py:258-278 | for headers in mixed case, one of them only containing an alias, exactly one map follows the rule: GSTIN, Mobile No, Email ID and Client Name each to the field it names |
| CustomerImport.RowToFields | app/features/customers/seed.py:281-301 | the loop yields each mapped field's cell value and drops blank cells and unreadable dates |
| CustomerImport.FieldsOfValid | app/features/customers/seed.py:292-300 | mapped values are non-blank, begin with a visible character, fit their columns, and e-mails are lower case |
| CustomerImport.TrimmedIffCutClean | app/features/customers/seed.py:297-300 | a mapped text is trimmed unless the cut at its column width falls behind a space |
| CustomerImport.Customer.FillBlanks | app/features/customers/seed.py:365-371 | fills exactly the blank fields, never the name, and reports whether it filled any |
| CustomerImport.CustomerRepository.FirstBy | app/features/customers/repository.py:135-140 | some customer of the organization matching by the key, if there is one |
| CustomerImport.CustomerRepository.FindDuplicate | app/features/customers/repository.py:116-143 | a match by the highest-priority key that anybody matches; none exactly when no key matches |
| ImportLookup.DuplicateIff | app/features/customers/repository.py:127-143 | a customer is a match if and only if it has the line's GST number, or nobody has that and it has the PAN, or nobody has either and it has the mobile number, or nobody has any of the three and it has the e-mail address |
| ImportLookup.NoDuplicateIff | app/features/customers/repository.py:127-143 | nobody is matched if and only if nobody has any of the four |
| ImportLookup.MobileBeatsEmail | app/features/customers/seed.py:20-24 | a line with one customer's mobile number and another's e-mail address belongs to the first |
| CustomerImport.CustomerRepository.NextCodeSequence | app/features/customers/repository.py:107-114 | the organization's highest code plus one; fails exactly when some code cannot be cast to a 4-byte integer |
| CustomerImport.CustomerRepository.Add | app/features/customers/repository.py:189-191 | appends one row and keeps the others |
| CustomerImport.ImportRow | app/features/customers/seed.py:336-380 | one line is ignored, created, filled in, skipped or failed, as its match and the code sequence dictate |
| CustomerImport.ImportRows | app/features/customers/seed.py:336-381 | the row loop moves the table along a run of the mapped lines and its summary counts that run |
| CustomerImport.ImportRegister | app/features/customers/seed.py:316-381 | one register's run; no line is imported and one error reported when no column holds the client name |
| CustomerImport.ImportSummary.Merge | app/features/customers/seed.py:105-109 | adds counts and appends errors |
| CustomerImport.ImportCustomers | app/features/customers/seed.py:384-412 | both registers, GST first, make up one run; an unavailable sheet is reported and passed over |
| ImportLookup.CreatedCarriesLine | app/features/customers/seed.py:352-363 | every customer a run creates carries its line's register and fields, and keeps them to the end |
| ImportLookup.OutcomeIs | app/features/customers/seed.py:336-380 | which lines are passed over, created, failed, updated and skipped: a matched line updates exactly when its customer has a blank for it |
| ImportLookup.UpdatedTakesBlanks | app/features/customers/seed.py:365-371 | a matched customer takes the line's value in exactly its blank fields other than the name, and no other row changes |
| ImportLookup.CellFitsColumn | app/models/customer.py:52-72 | whatever a cell holds fits the width of its column, and a text that fits is not shortened |
| ImportLookup.DatesAreRead | app/features/customers/seed.py:287-291 | a date of birth is what the date reader makes of the cell, and nothing if it cannot |
| ImportLookup.FailedLinesAre | app/features/customers/seed.py:336-381 | the lines reported are exactly those that failed, numbered from 2 |
| ImportLookup.FirstCodeIs | app/features/customers/repository.py:19-20 | an organization's first code is CUS-0001 |
| ImportProperties.RunKeeps | app/features/customers/seed.py:336-376 | a run removes nobody, changes no code, type, name, non-blank field or other organization's row, and adds exactly the rows it counts as created |
| ImportProperties.ReimportCreatesNothing | app/features/customers/seed.py:341-376 | after a run in which every named line has a trimmed key, re-importing those lines in any order, at any later time and with any choice among ties, creates nothing |
| ImportProperties.CreatedMatchesItself | app/features/customers/repository.py:127-143 | a created line finds itself by its keys exactly when it has a trimmed key |
| ImportProperties.CreatedAgainIffNotFindable | app/features/customers/seed.py:351-363 | a line just created is created again exactly when no key of it is trimmed and a code can still be drawn |
| ImportConvergence.RunShrinksBlanks | app/features/customers/seed.py:365-376 | a run that creates nothing fills at least one blank per reported update, and reports none exactly when it changes nothing |
| ImportConvergence.RerunUpdatesAreBounded | app/features/customers/seed.py:336-376 | all re-runs together update at most as often as blank fields were left; among more re-runs than that one changes nothing |
| ImportConvergence.ImportConverges | app/features/customers/seed.py:336-376 | with ties broken the same way each time, the table is final after at most as many re-runs as there were blanks |
| ImportIdempotence.ImportLeavesAloneIff | app/features/customers/seed.py:20-26 | every import of the lines leaves the table alone if and only if no line may create a customer in it or fill a blank of a customer it matches |
| ImportIdempotence.SecondImportIdempotentIff | app/features/customers/seed.py:365-376 | with a trimmed key on every named line, re-importing after a first run changes nothing if and only if no line can still fill a blank |
| ImportIdempotence.CreatesNothingIff | app/features/customers/seed.py:25-26 | no import of any of these lines, in any order, creates a customer in a table if and only if every named line matches somebody in it or no code can be drawn |
| ImportConvergence.PassIsImport | app/features/customers/repository.py:135-140 | a fixed choice among ties is one of the runs considered |
| SampleRegister.SampleRegisterRun | app/features/customers/seed.py:258-301 | the three rows of that sheet, their header mapped by the full alias table, are exactly those three lines |
| ImportWitnesses.SecondRunMayUpdate | app/features/customers/seed.py:25-26 | one sheet of three keyed lines without ties whose second run still updates a customer |
| ImportWitnesses.UnfindableLineIsDuplicated | app/features/customers/seed.py:351-363 | any named line without a trimmed key, imported twice into an empty table, makes two customers |
| ImportWitnesses.PanMayBecomeShared | app/features/customers/seed.py:365-371 | two customers and one line after which both have the same PAN |
| ImportUniqueness.GstStaysUnique | app/features/customers/repository.py:127-143 | GST numbers distinct ignoring case before an import of trimmed GST numbers are so after it |
| ImportUniqueness.GstWrittenOnlyWhenUnheld | app/features/customers/seed.py:343-371 | a GST number is created or filled in only when its lookup found nobody |
| ImportUniqueness.GstSafeIffTrimmed | app/features/customers/seed.py:297-300 | a line keeps GST numbers unique in every table exactly when its own is trimmed |
| ImportUniqueness.KeyStaysUniqueIff | app/features/customers/seed.py:343-371 | for every field, a line keeps its values distinct in a table if and only if it cannot write a value that somebody holds |
| ImportUniqueness.PanStaysUniqueIff | app/features/customers/seed.py:343-371 | a line with a trimmed PAN puts unique PAN numbers at risk if and only if somebody holds its PAN and a customer with its GST number has none |
| ImportUniqueness.CreationTakesNextCode | app/features/customers/seed.py:352-355 | a new code differs from all of the organization's, and the next number is one higher until it outgrows the cast |
| ImportUniqueness.CodesStayUnique | app/models/customer.py:31-36 | codes stay unique in their organization over a run |
| ImportUniqueness.CreatedCodesAreConsecutive | app/features/customers/seed.py:352-363 | a run's new codes follow the highest one consecutively, in creation order; none is created once the cast fails |
| Text.PaddedRoundTrip | app/features/work_orders/repository.py:92 | parsing a zero-padded number gives it back at every width, overflow included |
| Text.LowerStripMatches | app/features/customers/repository.py:138 | a text equals its stripped form up to case exactly when it was trimmed |
| Numbering.FormatRoundTrip | app/features/work_orders/repository.py:87-92 | each of the three parsers reads back the sequence number its formatter wrote |
| Numbering.NumbersWritten | app/features/work_orders/repository.py:92 | two digits for work orders, three for invoices, four for customers, and more when they do not fit |
| Numbering.WorkOrderSuffix | app/features/work_orders/repository.py:88-91 | of any work-order number the digits it ends in are read |
| Numbering.InvoiceSuffix | app/features/invoicing/service.py:57-60 | of any invoice number what follows the last hyphen is read, if that is all digits |
| Numbering.CustomerSuffix | app/features/customers/repository.py:107-114 | of any customer code all digits together are read |
| Numbering.NextNumber | app/features/work_orders/repository.py:76-92 | the loop returns the number after the highest suffix under the prefix |
| Numbering.HighestSuffix | app/features/invoicing/service.py:56-60 | the highest suffix among the rows, 0 when none carries one |
| Numbering.NextIsFresh | app/features/invoicing/service.py:48-61 | a generated number differs from every stored one, whatever those look like |
| Numbering.AutoRunIsGapFree | app/features/invoicing/service.py:48-61 | with automatic numbers drawn one after another, each date's numbers are exactly 1..n, n counting its draws, whatever other dates draw |
| Numbering.NextComesBackIff | app/features/work_orders/repository.py:76-92 | of numbers issued as 1..n some of which are gone, the next one drawn was issued before if and only if the n-th is gone |
| Allocation.NumberTable.Allocate | app/features/work_orders/service.py:189-202 | the retry loop stores a number nobody took in between, or each of five candidates was taken by others between read and insert |
| Allocation.NumberTable.CreateInvoice | app/features/invoicing/service.py:89-118 | an explicit number is stored or refused as a duplicate in one try; an automatic one is stored by the first try of the loop that finds its next number free, or each of five was taken meanwhile |
| Allocation.RunKeepsInv | alembic/versions/0001_initial_schema.py:184 | over every interleaving stored numbers are unique in their scope, each commit is its creator's only one, and a held number that is taken was committed by another creator after it was read |
| Allocation.UndisturbedInsertCommits | app/features/work_orders/service.py:191-195 | an insert with no commit since its read succeeds |
| AllocationBound.EveryFailureIsCharged | app/features/work_orders/service.py:190-200 | each failed attempt is charged to a commit of its own: another creator of the scope committed the very number it held, after its read and before its insert |
| AllocationBound.FailuresBelowCreators | app/features/invoicing/service.py:105-114 | nobody fails as often as there are creators in its own scope |
| AllocationBound.FiveTriesServeFiveCreators | app/features/work_orders/service.py:33 | whatever happens in other scopes, no interleaving exhausts the five tries of a creator of the scope if and only if the scope has at most five creators |
| AllocationLoop.TryEffect | app/features/work_orders/service.py:190-200 | among any steps of other creators, deletions included, a try fails exactly when the number it read is stored by the time it inserts |
| AllocationLoop.FailedTriesCollide | app/features/invoicing/service.py:105-115 | a creator of the concurrent system that failed every try so far has failed as the loop does: same numbers stored, each candidate committed in its own window |
| AllocationLoop.FirstSuccessSucceeds | app/features/invoicing/service.py:105-117 | the first try that succeeds in the concurrent system stores what the loop stores |
| AllocationReuse.NoNumberTwiceWithoutDeletes | app/models/invoice_record.py:27 | without deletions no number of a scope is ever given out twice |
| AllocationReuse.IssuedIsGapFree | app/features/work_orders/repository.py:76-92 | whatever is created and deleted concurrently, the numbers ever issued for a day are 1..n |
| AllocationReuse.StoredIsGapFree | app/features/invoicing/service.py:105-118 | over every interleaving of automatic creators, the invoices of a date carry exactly the numbers 1..n |
| AllocationReuse.NumberComesBackIff | app/features/work_orders/service.py:533-539 | in every reachable state the number drawn next was issued before if and only if the newest number ever issued for the day is no longer stored |
| AllocationReuse.CreationRepeatsIff | app/features/work_orders/service.py:189-202 | a work order created undisturbed commits a number issued before exactly then |
| AllocationReuse.InsertRepeatsIff | app/features/work_orders/service.py:189-202 | in every reachable state an insert, however late, commits a number issued before if and only if the number is free and is not the one past the newest ever issued |
| AllocationReuse.LateInsertRepeats | app/features/work_orders/service.py:190-200 | three creators and one deletion after which a late insert commits 01 again while 02 is still stored |
| AllocationReuse.DeletedNumberComesBack | app/features/work_orders/service.py:533-539 | deleting a day's newest work order gives its number to the next |
| OfficeStore.Database.CountActiveAdmins | app/features/employees/repository.py:72-84 | counts the active, non-deleted admins of the organization |
| OfficeStore.Database.CountAdmins | app/features/employees/repository.py:86-97 | counts the non-deleted admins, active or not |
| OfficeStore.Database.FindActiveAdminIds | app/features/notifications/repository.py:40-50 | the active admins of the organization except one, deleted or not |
| OfficeStore.Database.HoldsActiveOrders | app/features/employees/repository.py:99-108 | whether an open order is assigned to the user |
| OfficeStore.Database.RestampNames | app/features/employees/repository.py:110-117 | every order assigned to the user shows the label, no other row changes |
| OfficeStore.Database.NextOrderNumber | app/features/work_orders/repository.py:76-92 | the day's next number, unused in the organization |
| OfficeStore.Database.NotifyAll | app/features/work_orders/service.py:101-121 | one notification per recipient is added |
| OfficeStore.WorkOrder.Progress | app/features/work_orders/service.py:317-342 | status, completion time, note and timeline entry of one progress step |
| OfficeStore.WorkOrder.Edit | app/features/work_orders/service.py:486-522 | the edited fields and no others change; the status and timeline do not |
| OfficeServices.EmployeeService.Create | app/features/employees/service.py:68-92 | the whole database after creating a member, or the conflict that refuses it |
| OfficeServices.EmployeeService.Update | app/features/employees/service.py:94-121 | the whole database after an update, which may switch a member off without guard or audit entry |
| OfficeServices.EmployeeService.SetActive | app/features/employees/service.py:123-149 | the whole database after (de)activation, with its no-op, guard and audit entry |
| OfficeServices.EmployeeService.SetRole | app/features/employees/service.py:194-240 | the whole database after a role change, with its no-op, guard and audit entry |
| OfficeServices.EmployeeService.Delete | app/features/employees/service.py:157-192 | the whole database after a soft delete, or the first of the four rules that refuses it |
| OfficeServices.WorkOrderService.Resolve | app/features/work_orders/service.py:123-138 | an assignee must be an employee of the organization; being inactive or deleted is no obstacle |
| OfficeServices.WorkOrderService.Create | app/features/work_orders/service.py:143-234 | the whole database after creating an order, its number drawn in the retry loop, with first timeline entry and notifications |
| OfficeServices.WorkOrderService.UpdateStatus | app/features/work_orders/service.py:299-354 | the whole database after a progress step, or why it is refused |
| OfficeServices.WorkOrderService.Assign | app/features/work_orders/service.py:359-397 | the whole database after an assignment, or why it is refused |
| OfficeServices.WorkOrderService.Close | app/features/work_orders/service.py:399-424 | the whole database after closing a completed order |
| OfficeServices.WorkOrderService.Cancel | app/features/work_orders/service.py:426-444 | the whole database after cancelling an open order |
| OfficeServices.WorkOrderService.Update | app/features/work_orders/service.py:476-528 | the whole database after an edit, which may change the assignee and never the status |
| OfficeServices.WorkOrderService.Delete | app/features/work_orders/service.py:533-539 | the order, its timeline and notes go; its notifications are unlinked |
| OfficeApi.Api.Handle | app/core/dependencies.py:56-90 | for an active user of an active organization, an admin where the route asks for one, serving a request moves the stored objects exactly as one step of the run; anybody else changes nothing |
| OfficeApi.Api.SignUp | app/features/auth/service.py:80-112 | a new active employee in an organization with an admin, if any has one; nothing without an e-mail or phone, or when one is taken |
| OfficeRights.AllowedIff | app/core/dependencies.py:56-90 | who may ask for what: an active user of an open organization, raising and progressing orders for everybody, the rest for admins |
| OfficeRights.OutsiderChangesNothing | app/core/dependencies.py:56-65 | an unknown or inactive user, or one of a closed organization, changes nothing |
| OfficeRights.EmployeeChangesLittle | app/features/work_orders/service.py:308-314 | no request of an employee changes a member, a role, the audit trail, or an order it neither raises nor is assigned, and on the latter it makes progress and notes only |
| OfficeRights.OnlyAdminsManage | app/features/employees/service.py:194-203 | over any run without an admin acting, no member changes and no order is assigned, re-scheduled, closed, cancelled or deleted |
| OfficeRights.ProgressServedIff | app/features/work_orders/service.py:308-325 | an order is progressed if and only if an admin of its organization or its assignee asks, for its status or one step forward |
| OfficeRights.ProgressEffect | app/features/work_orders/service.py:317-342 | what a progress step leaves: status, completion time, one entry, the note, and nothing else |
| OfficeRights.AssigneeCompletes | app/features/work_orders/service.py:302-342 | an active assignee takes an assigned order to completion by two requests |
| OfficeEffects.ProgressTells | app/features/work_orders/service.py:343-351 | completing tells every active admin of the organization and nobody else |
| OfficeEffects.ToldAdminsAre | app/features/notifications/repository.py:40-50 | the admins told are the active, non-deleted ones without the one left out |
| OfficeEffects.AssignEffect | app/features/work_orders/service.py:359-397 | when an assignment is served and what it leaves; the assignee, and nobody else, is told |
| OfficeEffects.CreateServedIff | app/features/work_orders/service.py:158-180 | a creation is refused only for a used identifier, a foreign customer or an admin's assignee who is no employee of the organization |
| OfficeEffects.CreateEffect | app/features/work_orders/service.py:150-209 | the new order's number, requester, status and assignee; an employee's request has no assignee, name or due date |
| OfficeEffects.CreateTells | app/features/work_orders/service.py:221-229 | an order assigned on creation is told to its assignee and nobody else |
| OfficeEffects.CloseEffect | app/features/work_orders/service.py:399-424 | only a completed order closes, and only its requester is told |
| OfficeEffects.CancelEffect | app/features/work_orders/service.py:426-444 | an order not yet completed can be cancelled, and nobody is told |
| OfficeEffects.UpdateOrderServedIff | app/features/work_orders/service.py:486-516 | when an edit is served |
| OfficeEffects.UpdateOrderEffect | app/features/work_orders/service.py:486-522 | an edit sets the given fields and leaves status, timeline, notes and notifications alone |
| OfficeEffects.UpdateOrderShows | app/features/work_orders/service.py:508-517 | the name shown is the new assignee's, else what was typed, else what it was |
| OfficeEffects.DeleteOrderEffect | app/features/work_orders/service.py:533-539 | one order goes; what was sent about it stays without the link, everything else as it was |
| OfficeEffects.SetActiveEffect | app/features/employees/service.py:123-149 | (de)activation is refused only for switching off the one active admin, takes effect, and is audited once exactly when it changes something |
| OfficeEffects.SetRoleEffect | app/features/employees/service.py:194-240 | a role change is refused only for demoting the one active admin, takes effect, and is audited once exactly when it changes something |
| OfficeEffects.DeleteEffect | app/features/employees/service.py:157-192 | deletion is refused only for oneself, the only admin, or a member holding an open order; it marks, switches off and relabels, and changes nothing else |
| OfficeActivity.ActivityReplays | app/features/employees/service.py:139-146 | over every run a member's activation, deactivation and deletion entries, with the plain updates in their places, replay to its activity |
| OfficeContacts.CreateServedIff | app/features/employees/service.py:68-76 | a creation is refused only for a phone number or e-mail address somebody has |
| OfficeContacts.CreateMemberEffect | app/features/employees/service.py:78-92 | what is stored of a new member |
| OfficeContacts.UpdateMemberEffect | app/features/employees/service.py:94-121 | what an update sets, and that role, organization and audit trail stay |
| OfficeContacts.SignUpServedIff | app/features/auth/service.py:80-98 | a sign-up is refused only for want of a contact, for a contact somebody has, or for an organization without an admin while another has one |
| OfficeContacts.SignUpEffect | app/features/auth/service.py:104-112 | who signs up becomes an active employee of that organization, or nothing changes |
| OfficeContacts.ContactsStayUnique | app/features/employees/repository.py:119-129 | over every run, sign-ups included, no two members share a phone number or, case aside, an e-mail address |
| OfficeLifecycle.OrderStepKeepsOk | app/features/work_orders/service.py:35-46 | whatever a request does to an order, its timeline still replays to its status, its rank does not fall, and closed and cancelled are final |
| OfficeLifecycle.TimelineReplaysToState | app/features/work_orders/service.py:320-342 | in every reachable state each timeline replays to the status through legal transitions, the completion time is set exactly when completed or closed, and a category description exists exactly for OTHERS |
| OfficeLifecycle.StatusNeverMovesBack | app/features/work_orders/service.py:37-46 | over any run an order's status never moves back, terminal ones never move, the timeline only grows, and a deleted order does not return |
| OfficeNotifications.CompletingKeepsNotes | app/features/work_orders/service.py:343-351 | completing tells each active admin once |
| OfficeNotifications.AnnouncedExactlyOnce | app/features/work_orders/service.py:405-421 | nobody is told twice of a completion, and the requester has exactly one closing notification if the order is closed and none otherwise |
| OfficeStaff.DeletedStayInactive | app/features/employees/service.py:175-180 | deleted members are inactive in every reachable state |
| OfficeStaff.DeleteKeepsAdmin | app/features/employees/service.py:163-169 | deletion leaves an active admin because the acting admin is active and may not delete itself |
| OfficeStaff.LastAdminLostIff | app/features/employees/service.py:114-115 | a request costs an organization its last active admin if and only if it is an accepted update switching that admin off |
| OfficeStaff.LastAdminRemains | app/features/employees/service.py:130-137 | over every run without such an update an active, non-deleted admin remains |
| OfficeStaff.EveryRequestReachesAnAdmin | app/features/work_orders/service.py:211-220 | after any such run an employee's request adds exactly one notification per active admin, as many as the guard counts and at least one |
| OfficeStaff.LastAdminMayGo | app/features/employees/service.py:114-115 | one active admin switching itself off by an update leaves the organization without any |
| OfficeStaff.RoleAuditReplays | app/features/employees/service.py:220-234 | over every run the audit entries chain, alternate and replay to everybody's current role |
| OfficeStaff.ActiveOrderOfDeletedIff | app/features/work_orders/service.py:129-137 | from a state where no active order belongs to a deleted member, exactly the requests assigning to a deleted member break that |
| OfficeStaff.DeletedMayBeAssigned | app/features/work_orders/service.py:129-137 | an employee is deleted and then given a waiting order |
| OfficeTenancy.OnlyOwnMembersTouch | app/features/work_orders/service.py:3-5 | over any run in which no member of an organization acts, its orders stay exactly as they are and its members too, but for those that sign up to it |
| OfficeTenancy.JoinedAreEmployees | app/features/auth/service.py:104-112 | whoever signs up is an employee |
| OfficeTenancy.RequestStaysInside | app/features/work_orders/repository.py:23-28 | one request changes no order and no member of another organization |
| OfficeTenancy.ForeignAssigneeBreaksIsolation | app/features/employees/repository.py:110-117 | relabelling ignores organizations, so isolation needs every assignee to belong to the order's organization |
| OfficeStaff.OrderNumbersStayUnique | app/features/work_orders/repository.py:76-92 | work-order numbers are unique in their organization in every reachable state |
| AuthService.AuthRepository.RevokeAllUserRefreshTokens | app/features/auth/repository.py:137-142 | the loop revokes exactly the user's live tokens |
| AuthService.AuthRepository.GetUserByLogin | app/features/auth/repository.py:36-48 | of the accounts with the e-mail or phone, active ones first, the earliest created; none exactly when nobody has it |
| AuthService.AuthenticationService.SignUp | app/features/auth/service.py:73-117 | a new active account with one live token; nothing without an e-mail or phone, or when one is taken |
| AuthService.AuthenticationService.LogIn | app/features/auth/service.py:131-151 | one more live token when the account found is active, its password verifies and its organization is active, else nothing |
| AuthService.AuthenticationService.Handle | app/features/auth/service.py:73-247 | serving a request moves the stored objects exactly as one step of the run, for the account its lookup finds |
| AuthService.AuthenticationService.Rotate | app/features/auth/service.py:156-174 | the presented live, unexpired token of an active user is revoked and replaced, or nothing changes |
| AuthService.AuthenticationService.LogOut | app/features/auth/service.py:179-188 | revokes a live token and never fails |
| AuthService.AuthenticationService.Forgot | app/features/auth/service.py:193-212 | a reset token for an active account, otherwise no change |
| AuthService.AuthenticationService.Reset | app/features/auth/service.py:214-231 | the password is replaced, the reset token used up and all the user's live tokens revoked, or nothing changes |
| AuthService.AuthenticationService.Change | app/features/auth/service.py:236-247 | the password is replaced and all the user's live tokens revoked, or nothing changes |
| AuthService.AuthenticationService.StaffEdit | app/features/employees/service.py:114-117 | staff administration changes activity and password and no token |
| AuthProperties.RevocationIsWriteOnce | app/features/auth/repository.py:134-142 | over any run tokens are never removed and a revocation or use time is never overwritten |
| AuthProperties.RunKeepsSessions | app/features/auth/service.py:170-172 | in every reachable state a session has at most one live token, and no token was refreshed or reset twice |
| AuthProperties.LiveTokensAtMostSessions | app/features/auth/service.py:54-68 | a user never has more live tokens than logins plus registration |
| AuthProperties.RefreshSucceedsOnce | app/features/auth/service.py:160-171 | a token once refreshed is rejected in all later states |
| AuthProperties.ResetSucceedsOnce | app/features/auth/service.py:216-227 | a reset token once used is rejected in all later states |
| AuthProperties.PasswordChangeCutsSessions | app/features/auth/service.py:226-230 | after a change or reset every earlier token of the user is rejected for good and other users' tokens are untouched |
| AuthProperties.LiveAfterRunIff | app/features/auth/repository.py:134-142 | a token is live after a run if and only if it was before and no request of the run refreshed it, logged it out, or changed or reset its user's password |
| AuthAccess.PasswordReplaced | app/features/auth/service.py:226-246 | after a change, a reset or a staff update the account logs in with a password if and only if it is on, not locked out, and the password agrees with the new one on 72 bytes |
| AuthAccess.RegisterServedIff | app/features/auth/service.py:81-89 | a sign-up needs an e-mail address or a phone number that nobody has |
| AuthAccess.RegisteredStored | app/features/auth/repository.py:99-119 | what is stored of a new account: organization, trimmed phone number, e-mail address, time |
| AuthAccess.RegisteredLogsIn | app/features/auth/service.py:105-117 | after signing up, a password logs in if and only if it agrees with the chosen one and the organization is open |
| AuthAccess.NewTokenIsEarned | app/features/auth/service.py:131-174 | a token appears only for an active account that signs up, logs in with its password while its organization is open, or presents a live token of its own |
| AuthAccess.IssuedTokenWorks | app/features/auth/service.py:54-68 | an issued token is accepted until it expires |
| AuthAccess.InactiveGainsNothing | app/features/auth/service.py:141-142 | an account that stays off gains no token over any run |
| AuthAccess.RevokedNow | app/features/auth/repository.py:134-142 | a revoked token carries the time of the request that revoked it |
| AuthAccess.ForgottenCanReset | app/features/auth/service.py:193-224 | a reset token asked for by an active account resets until it expires |
| AuthAccess.ContactsStayUnique | app/features/auth/service.py:86-89 | over every run no two accounts share an e-mail address, case aside, or a phone number |
| AuthAccess.EmailFindsOwner | app/features/auth/repository.py:25-34 | in every reachable state an e-mail address finds its owner and nobody else |
| AuthAccess.EmailLogsInOwner | app/features/auth/repository.py:36-48 | an e-mail address that is nobody's phone number finds its owner to log in, and nobody else |
| AuthAccess.PhoneFindsOwner | app/features/auth/repository.py:36-48 | a phone number that is nobody's e-mail address finds its owner to log in, and nobody else |
| AuthAccess.LoginPrefersActive | app/features/auth/repository.py:36-48 | an active account that answers is found before any other, the earliest created first |
| AuthProperties.SessionsSurviveIff | app/features/employees/service.py:116-117 | once a user's password has been set, an earlier token is accepted at a later time if and only if a staff update set it, the token was live, has not expired, was not cut since, and the account is on |
| AuthProperties.StaffPasswordLeavesSession | app/features/employees/service.py:116-117 | a session opened before staff set a new password is still accepted after it |
| AuthProperties.OldPasswordStillWorksIff | app/core/security.py:29-37 | after a change the old password still logs in exactly when both agree on their first 72 bytes |
| AuthProperties.OldPasswordStillWorks | app/core/security.py:29-37 | two passwords of 73 characters of which the old one still logs in after the change |
| Invoicing.RoundHalfUpIff | app/features/invoicing/service.py:30-31 | the rounding is the unique nearest integer, ties going away from zero |
| Invoicing.TotalsExact | app/features/invoicing/service.py:34-41 | net and discount make up the gross, and the discount is within half a cent of exact with half cents going up |
| Invoicing.DiscountBounds | app/features/invoicing/service.py:39 | the discount lies between zero and the gross |
| Invoicing.TotalsIgnoreOrder | app/features/invoicing/service.py:37 | the totals depend on which items there are, not on their order |
| Invoicing.TotalsMonotoneInGross | app/features/invoicing/service.py:38-40 | a higher gross lowers neither discount nor net |
| Invoicing.NetAntitoneInPercent | app/features/invoicing/service.py:39-40 | a higher percentage never raises the net |
| Invoicing.SplitChangesDiscountLittle | app/features/invoicing/service.py:34-41 | splitting a gross over k invoices changes the total discount by at most (k+1)/2 cents |
| Invoicing.ProductsFitPrecision | app/models/invoice_record.py:32-37 | with a gross that fits its column, every product stays below 28 digits |
| Slug.UniqueSlug | app/features/auth/service.py:119-126 | stops within one probe more than there are slugs, at the first free candidate |
| Slug.FirstCandidates | app/features/auth/service.py:119-126 | after the base itself base-2 is tried |
| Slug.CandidatesDistinct | app/features/auth/service.py:124 | no two candidates are the same text |

## Left out

- Reading files, sheets and spreadsheets, float cells and the date formats: the model starts from rows of texts, and reading a date is a parameter.
- Text beyond ASCII: case folding, digits and blanks are the ASCII ones.
- JWT signing and decoding, bcrypt salts and cost, timing uniformity: a presented token is given as the identifier it decodes to, and a hash stands for the bytes it reads.
- AuthService.AuthenticationService.SignUp: the organization that takes in a new account is a parameter; `OfficeApi.Api.SignUp` promises one with an admin, not that of the earliest created admin, because office members carry no creation time.
- Deriving a name from an e-mail address on sign-up: the name is given. Staff changes of phone and e-mail in the session tables.
- Access tokens: no table records them; a request made with one is modelled by its acting user.
- ImportUniqueness.PanStaysUniqueIff: it is about lines with a trimmed PAN; `KeyStaysUniqueIff` states the condition for every line and field.
- Database failures other than a duplicate key and the failing code cast; two requests racing anywhere but in number allocation.
- OfficeServices.WorkOrderService.Create: in the office database requests are served one at a time, so its retry loop succeeds at the first try; creators that race are modelled in `Allocation`.
- AllocationLoop.FailedTriesCollide: it is about tables nobody deletes from meanwhile, as the invoices are; with deletions `TryEffect` and the bounds of `AllocationBound` hold.
- Invoice numbers with wildcard characters in the configured prefix: a prefix is taken literally.
- Work-order fields that are only copied (customer name, description, priority, order date, free notes), a member's designation, and in the office database the member's password (see `Auth`).
- An invoice's stored copy of its totals and items, and totals too large for their columns.
- Turning a name into a slug base, and whether a probed slug still fits its column.
- Listing, searching, paging, statistics, the dashboard, the notification inbox, and customer editing: they would add only easy members.
- The command that seeds the first admin: it rewrites role and activity outside the services.
