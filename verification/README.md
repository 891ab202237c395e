# Proofs about the panel's provider isolation, billing, migrations and seeds

One deployment of the panel serves many providers from one database. This
project models the parts of its backend whose correctness is not visible from
any single function, and proves what they promise over every run.

- **Provider isolation.** `TenantStore` is the shared store and the scope that
  decides which rows a call reaches; `TenantEffects` says row by row what a call does;
  `TenantTasks` runs any number of tasks interleaved over it; `TenantJobs` is the per-provider loop; `TenantPanel` holds
  the stateful helpers. `RowLevelSecurity` is the second layer: a pool of
  connections, a variable local to a transaction and a three-valued policy;
  `RowLevelEffects` says what each step does to the table.
  `SqlText` and `SqlSentinel` are the test instrument that reads SQL text.
- **Billing.** `BillingAccount` is one provider's subscription, charges, ledger
  and invoice queue under the gateway's deliveries and the console's actions,
  each of which may be cut off after any write. `BillingEffects` says what each of
  them does, from the facts of the delivery. `BillingLaws`, `BillingRefunds`
  and `BillingSettlement` hold the laws; `BillingWebhook` attributes deliveries to
  providers and holds the controller.
- **Migrations.** `MigrationSteps` is a step made of the two helpers, cut at every
  write; `MigrationRunner` the ledger and boots cut short anywhere;
  `MigrationEffects` what an undisturbed boot does and that it arrives;
  `MigrationRace` any number of boots interleaved; `MigrationDatabase` the loops.
- **Seeds and backfills.** `Seed`, `Catalogue`, `SuspensionDates`,
  `AccountColours`.
- **Text with an inverse, and check digits.** `ShellPrinter`, `Redaction`, `Cnpj`.
- `Prelude` and `Decimal` are shared helpers.

Code that changes state is a class or a method with a loop, proved equal to a
specification function or relation; the laws are lemmas about those, and what each
such function computes is stated apart from it, from its inputs alone. Functions
that throw in the source return an error value here.

## Where the code does not do what one might expect

- **The provider filter and `orWhere`.** `tdb` puts the provider filter first and hands
  back a builder that refuses only `insert`. In SQL `and` binds before `or`, so an
  `orWhere` at the top of the chain begins a group the filter is not part of, and
  `DeviceSwap.listForDevice` chains one on `device_swaps`
  (backend/src/models/DeviceSwap.js:130-137). Device ids are unique only inside one provider's
  GenieACS (backend/src/config/tenantScope.js:118-126), so two providers can meet there:
  `TenantStore.ListForDeviceReachesOthers` is the input and `TenantStore.ListForDeviceIff` says
  when the answer is the provider's own. For any chain, `TenantStore.StaysInScopeIff` gives
  the exact condition and `TenantStore.NoOrStaysInScope` the guard a caller can read off
  the code: no `orWhere` outside a bracketed condition. The isolation theorems are
  about chains that stay in scope. Where row-level security is on, its policy is applied
  to the whole statement whatever it chains (`RowLevelSecurity.MarksDoNotLeak`).
- **Refunds and late payments.** The renewal date is not always its start plus
  the pushes of the unrefunded references. A payment made after the deadline
  starts its period at the moment of payment; if another payment then moves the
  date and the first is refunded, `reversePayment` takes back the days but not
  the time that had lapsed. `BillingLaws.Conservation` is the exact law with what
  each refund leaves, `BillingRefunds.LatePaymentLeavesResidue` is a concrete run, and
  `BillingRefunds.StrictLawIff` says of every run when the law holds without it: if and
  only if each refund that undoes a period finds the date where its payment left it,
  or, finding it clearly elsewhere, undoes a payment that was on time.
- **A refund before its payment** leaves nothing in the ledger to stop the payment
  later: `BillingSettlement.RefundBlocksIff` says a refund stops its payment if and only
  if the payment was recorded before it.
- **A crash between the credit and the label** leaves a credited charge pending, and no
  redelivery labels it. It stays so until the gateway calls it overdue, canceled or
  refunded or the console settles it from the ledger, and only until then
  (`BillingSettlement.CrashLeavesTheLabelBehind`). `BillingSettlement.LabelsFollowIff` says
  of every run when the labels follow the money all along.
- **A migration step of the two helpers is not always restartable**: one that adds
  a column to a table, if the table is there, and then creates the table without
  that column diverges when interrupted. `MigrationSteps.RestartableIff` is the exact
  condition, and `MigrationRunner.DeclaredDependable` carries it to the runner.
- **The redactor** leaves a secret behind when the secret is part of its own mark, or
  when it has a bracket and what is left of the text completes it again over the mark:
  `abcdef[` in `abcdefabcdef[`. `Redaction.CleanIff` is the exact condition for any number of
  secrets without brackets, `Redaction.OneSecretIff` for one secret of any characters.
- **Resending the catalogue with two source rows of one identity** leaves a copy
  that lacked it with the first row while counting an overwriting, because the map
  of existing rows is given the source's own row, whose id the update then looks for
  under the wrong provider (`Catalogue.SecondOfTwoIsLost`). `Catalogue.HeldIff` says which
  source rows a copy ends with, and `Catalogue.OverwritingBringsEverythingIff` when it ends
  with all. `Vendor` and `WifiSecurityConfig` look for a duplicate before they write
  (backend/src/models/Vendor.js:75-124, backend/src/models/WifiSecurityConfig.js:34-100) but no
  unique index stands behind them (backend/src/config/migrations.js:4731-4760): such a source
  comes from rows older than the check, from a blank vendor name, which it lets
  through, or from two requests between the check and the insert.
- **The printed shell lines** carry every value except one with a NUL
  (`ShellPrinter.PrintedLinesEvaluate` covers both).

## Model

| member | source | states |
|---|---|---|
| TenantStore.StaysInScopeIff | backend/src/config/database.js:94-112 | on a scoped table a chain of `where` and `orWhere` answers from the provider's rows alone, whatever the rows, if and only if no row of another provider meets it once the provider filter fails |
| TenantStore.OwnRowsOnlyIff | backend/src/config/database.js:94-112 | over given rows, a chain reads only the provider's own, and deletes no other, if and only if none of the others among them meets it without the filter |
| TenantStore.HoldsByGroups | backend/src/config/database.js:94-112 | a chain lets a row through when the group the provider filter begins is met, or any group an `or` begins |
| TenantStore.NoOrStaysInScope | backend/src/config/database.js:94-112 | a chain with no `orWhere` at its top stays in scope for every provider |
| TenantStore.ListForDeviceIff | backend/src/models/DeviceSwap.js:130-137 | the swaps of a device are the provider's own if and only if no other provider's swap names that id as the device replaced |
| TenantStore.ListForDeviceReachesOthers | backend/src/models/DeviceSwap.js:130-137 | with such a swap there, one provider is answered with the other's row |
| TenantStore.ExecOwn | backend/src/config/database.js:94-178 | any call made in a provider's scope, whose chain stays in it, gives the same answer on that provider's rows and cache entry alone as on everybody's, and leaves the same partition |
| TenantStore.ExecOther | backend/src/config/database.js:94-178 | any call made in another scope, whose chain stays in that scope, or in none, leaves a provider's rows and cache entry as they were |
| TenantStore.ExecWithoutScope | backend/src/config/tenantContext.js:79-94 | with no provider in scope every call on scoped data throws and changes nothing |
| TenantEffects.MeetsWhenAdmitted | backend/src/config/database.js:94-112 | a row is reached exactly when it is the provider's and meets the leading conditions, or a later group admits it |
| TenantEffects.ReadMeaning | backend/src/config/database.js:94-112 | a read answers the columns of exactly the rows admitted, in the order of the table, and changes nothing |
| TenantEffects.UpdateMeaning | backend/src/config/database.js:94-112 | an update keeps every row in its place under its provider, rewrites the columns of exactly those admitted, and answers how many |
| TenantEffects.DeleteMeaning | backend/src/config/database.js:94-112 | a delete leaves exactly the rows not admitted, in order, and answers how many are gone |
| TenantEffects.InsertMeaning | backend/src/config/database.js:144-173 | an insert puts the rows given behind those that were there, each with its columns and under the provider in scope where the table has providers |
| TenantEffects.BuilderInsertMeaning | backend/src/config/database.js:114-141 | an insert on the builder throws on a scoped table and writes nothing, and is an insert on any other |
| TenantEffects.RefusedCall | backend/src/config/database.js:94-98 | a call on a table that is not there, or on a scoped one with no provider, throws and changes nothing |
| TenantEffects.CachedUntilItExpires | backend/src/config/tenantCache.js:24-33 | what a provider caches it finds until the lifetime is over and not after, and nobody else's entry is touched |
| TenantEffects.ForgottenIsMissing | backend/src/config/tenantCache.js:24-38 | an entry forgotten, or never there, is not found |
| TenantTasks.NonInterference | backend/src/config/tenantContext.js:35-94 | under any interleaving of tasks whose chains stay in their provider's scope, what a provider sees (rows, cached values, every answer) is what its own tasks alone would see on its own partition |
| TenantTasks.EnteringMeaning | backend/src/config/tenantContext.js:35-57 | a positive id puts the task in that provider's scope and a reason in an unscoped stretch; anything else throws and leaves the scope |
| TenantTasks.LeavingRestores | backend/src/config/tenantContext.js:35-57 | leaving puts back the scope there was before |
| TenantTasks.OthersDoNotMatter | backend/src/config/tenantContext.js:35-94 | two systems of such tasks that differ only in what other providers own and run stay indistinguishable to a provider after the same schedule |
| TenantTasks.UnscopedTasksChangeNothing | backend/src/config/tenantContext.js:51-57 | tasks that never enter a provider leave every row and every cache entry of everybody unchanged, however they interleave |
| TenantTasks.MovingTasksProject | backend/src/config/tenantContext.js:35-57 | any tasks, each moving between as many providers as it likes and choosing by every answer so far, in any interleaving whose calls stay in their scopes: the answers to the calls made in a provider's scope, and what it ends with, are what those calls alone give on its partition |
| TenantTasks.GuardedTasksStayInScope | backend/src/config/database.js:94-112 | tasks that put no `orWhere` at the top of a chain make only such calls, under every schedule |
| TenantTasks.ReplayProjects | backend/src/config/tenantContext.js:35-57 | the same for a list of calls that stay in their scopes, in a given order |
| TenantJobs.Worker.ForEachTenant | backend/src/config/tenantJobs.js:60-75 | the loop leaves the store, the collected values and the reported failures of visiting each active provider in order, a failed job not stopping the next |
| TenantJobs.RunJobMeaning | backend/src/config/tenantJobs.js:60-75 | a job is done with a value exactly when its program, started in the provider's scope, returned it within its steps, and the store is the one those steps left |
| TenantJobs.VisitedMeaning | backend/src/config/tenantJobs.js:60-75 | the providers visited are the active ones, of those asked for if any were |
| TenantJobs.CollectAppend | backend/src/config/tenantJobs.js:60-75 | one more provider visited adds its value to those collected if its job returned, and the provider to those reported if it threw |
| TenantJobs.VisitIsolates | backend/src/config/tenantJobs.js:60-75 | a pass leaves each visited provider what its own job alone would leave, with the same outcome, whatever the other jobs did or threw; a provider not visited keeps what it had |
| TenantJobs.VisitOrderDoesNotMatter | backend/src/config/tenantJobs.js:60-75 | visiting the same providers in another order gives every partition and every outcome the same |
| TenantJobs.InactiveUntouched | backend/src/config/tenantJobs.js:60-75 | a pass of scoped jobs leaves a provider that is not active as it was |
| TenantPanel.ScopeStore.EnterTenant | backend/src/config/tenantContext.js:35-41 | only a positive id opens a scope, and that scope is then the one in force |
| TenantPanel.ScopeStore.EnterUnscoped | backend/src/config/tenantContext.js:51-57 | only a reason opens an unscoped stretch, and in it there is no provider |
| TenantPanel.ScopeStore.Exit | backend/src/config/tenantContext.js:35-57 | leaving a scope puts the one before it back in force |
| TenantPanel.TenantCache.Get | backend/src/config/tenantCache.js:24-28 | reads the live entry of the provider in scope and of nobody else, and throws without one |
| TenantPanel.TenantCache.Set | backend/src/config/tenantCache.js:30-33 | writes the entry of the provider in scope only, to expire after the lifetime |
| TenantPanel.TenantCache.Invalidate | backend/src/config/tenantCache.js:36-38 | forgets the entry of the provider in scope only |
| TenantPanel.TenantCache.Clear | backend/src/config/tenantCache.js:48-50 | afterwards no provider finds an entry |
| TenantPanel.ScopedDatabase.Hit | backend/src/config/database.js:94-112 | the pass over the links decides as SQL groups them, behind the provider filter on a scoped table and without one elsewhere |
| TenantPanel.ScopedDatabase.Query | backend/src/config/database.js:94-112 | the pass over the rows finds, rewrites or removes those the builder reaches, the rows `TenantStore.ExecOwn` and `ExecOther` are about, and throws without a provider |
| TenantPanel.ScopedDatabase.Tinsert | backend/src/config/database.js:144-159 | the row is stored under the provider in scope whatever the caller wrote |
| TenantPanel.ScopedDatabase.TbatchInsert | backend/src/config/database.js:144-173 | every row of the batch is stored under the provider in scope |
| RowLevelSecurity.PolicyMeaning | backend/src/config/rls.js:80-128 | under the mark of a scope the three-valued policy admits exactly the rows that scope may see, with no cast error |
| RowLevelSecurity.UnmarkedAdmitsNothing | backend/src/config/rls.js:100-128 | with the variable unset or empty the policy admits no row |
| RowLevelSecurity.MarksDoNotLeak | backend/src/config/rls.js:176-256 | in every interleaving over a shared pool, each query carries the mark of the scope it was built in and saw exactly that scope's matching rows, a statement that reached a connection with no mark was shown nothing, and a connection back in the pool admits no row to its next user |
| RowLevelSecurity.ReadShowsTheTable | backend/src/config/rls.js:176-256 | a read is shown, once, exactly the rows that stand in the table at that moment (what is committed under the query's own changes), that its scope may see and that match |
| RowLevelEffects.RemoveMeaning | backend/src/config/rls.js:100-256 | a delete takes away exactly the rows asked for that the scope may see, or waits for one another transaction holds |
| RowLevelEffects.ModifyMeaning | backend/src/config/rls.js:100-256 | an update changes exactly those, and undoes the whole transaction if one would leave the scope |
| RowLevelEffects.AddMeaning | backend/src/config/rls.js:100-256 | an insert adds its row under a new id if the scope may see it, and undoes the transaction otherwise |
| RowLevelEffects.CommitMeaning | backend/src/config/rls.js:198-256 | a commit makes the table what the query last found in it, ends it and frees its connection |
| RowLevelEffects.AbortMeaning | backend/src/config/rls.js:198-256 | an abort leaves the table as it was and frees the connection |
| RowLevelEffects.QueryGetsItsMark | backend/src/config/rls.js:176-218 | a query that is built can take any idle connection, and before its first statement that connection carries the mark of the scope it was built in |
| RowLevelEffects.BareReadMeaning | backend/src/config/rls.js:198-256 | a read on a connection with no mark is answered, with no row |
| RowLevelSecurity.WritesStayInScope | backend/src/config/rls.js:100-256 | at every point of every interleaving, a committed row is touched only by the commit of a query whose scope may see the row before and after; a query with no scope and a statement with no mark touch none |
| RowLevelSecurity.ReadsExactly | backend/src/config/rls.js:100-128 | what the policy lets through under a faithful setting is what the scope may see, no more and no less |
| SqlText.TokenizeSpells | backend/src/config/sqlSentinel.js:47-53 | the token stream spells the text, so nothing is lost by judging it |
| SqlText.WordsAreTokens | backend/src/config/sqlSentinel.js:47-53 | a pattern anchored at a word boundary is found in the text exactly where a word token satisfies its token form |
| SqlSentinel.NameInIsToken | backend/src/config/sqlSentinel.js:51-53 | a name is found between word boundaries exactly when it is a maximal word of the text |
| SqlSentinel.QualifiedIsTokens | backend/src/config/sqlSentinel.js:58-62 | the qualified-column pattern matches exactly when some table token is followed by optional quote, spaces, a dot and the `tenant_id` token |
| SqlSentinel.DmlIsTokens | backend/src/config/sqlSentinel.js:64-67 | the DML pattern matches exactly when the first token, or one after `with` and a closing parenthesis, is a verb, whatever the case |
| SqlSentinel.VerbsMeaning | backend/src/config/sqlSentinel.js:64-67 | the verbs are those five, whatever the case |
| SqlSentinel.ColumnMeaning | backend/src/config/sqlSentinel.js:58-62 | the provider column is the word `tenant_id`, behind spaces and one opening quote at most |
| SqlSentinel.ShadowIsInWord | backend/src/config/sqlSentinel.js:69-78 | the shadow-table text occurs, whatever the case, exactly when it occurs inside one word |
| SqlSentinel.VerdictIsOnTokens | backend/src/config/sqlSentinel.js:76-103 | for any number of tables, the tables refused on the raw text are exactly those that on the token stream are named in judged DML and lack a `tenant_id` (alone) or their own qualified one (several) |
| SqlSentinel.FilteredStatementsPass | backend/src/config/database.js:94-112 | a statement in which every scoped table comes with the filter `tdb` adds passes, however many tables it names |
| SqlSentinel.StampedInsertsPass | backend/src/config/database.js:144-173 | a statement naming one scoped table and the quoted `tenant_id` column passes |
| BillingAccount.RefTextTellsApart | backend/src/models/BillingEvent.js:65-81 | on plain gateway ids the stored references of payments, refunds and acceptances never collide, so the unique index keys rows as the model does |
| BillingAccount.StoredAs | backend/src/models/BillingEvent.js:65-81 | a payment is stored under its id, its refund and its acceptance with their suffixes |
| BillingEffects.RecordMeaning | backend/src/services/subscriptionService.js:2595-3075 | a recorded payment adds one row with its amount and whether it came short; moves the date by its days, from the deadline or from now when that has passed, exactly when it is in full, buys a period and the subscription can be renewed; and leaves the subscription live exactly if it was, if it was renewed, or if it was suspended for not paying and owes nothing more |
| BillingEffects.NotRecorded | backend/src/services/subscriptionService.js:2595-2700 | a payment that is not recorded changes nothing, and the result says which of the three reasons it was |
| BillingEffects.EventStanding | backend/src/services/subscriptionService.js:2595-3075 | an event makes a subscription live exactly when it settles what its standing takes, and changes the standing in no other way |
| BillingEffects.RunStanding | backend/src/services/subscriptionService.js:2595-3075 | after any run a subscription stands as it did, or is live if and only if some event of the run made it so; one suspended by hand or ended is never brought back |
| BillingEffects.RefundDate | backend/src/services/subscriptionService.js:3125-3310 | a recorded refund puts the date back to the one before its payment when it is within a second of the deadline that set, and otherwise takes the days bought from it |
| BillingEffects.RefundMeaning | backend/src/controllers/billingWebhookController.js:197-258 | a refund told by the gateway: nothing for a partial one, otherwise the label and then one row, as far as its writes go |
| BillingEffects.ConsoleRefundMeaning | backend/src/controllers/platformSubscriptionsController.js:978-1090 | the console's refund of a paid charge: the row and the date, and then the label, as far as its writes go |
| BillingEffects.NoticeMeaning | backend/src/controllers/billingWebhookController.js:160-213 | an overdue notice labels a charge pending or failed to issue, a cancel notice one that is overdue too, and nothing else changes |
| BillingEffects.PaymentClosing | backend/src/controllers/billingWebhookController.js:429-480 | a new payment in full labels its charge and queues its invoice, one delivered again queues the invoice of a paid charge, and anything else does neither |
| BillingEffects.AcceptMeaning | backend/src/controllers/platformSubscriptionsController.js:224-259 | the console settling an open charge the ledger has a payment of: a short one is accepted first, and the charge is labelled and its invoice queued |
| BillingEffects.IssueMeaning | backend/src/controllers/billingWebhookController.js:124-133 | a charge is opened pending with what it asks, under an id nothing is known of |
| BillingEffects.FindMeaning | backend/src/models/BillingEvent.js:65-81 | a reference is found exactly when a row has it |
| BillingLaws.Conservation | backend/src/services/subscriptionService.js:2595-3075 | after any run of duplicates, reorderings, crashes and redeliveries, the renewal date is its anchor, plus the push of each unrefunded reference counted once, plus for each refund the lapsed time of its payment, or the distance to the deadline that payment set where the two count as the same |
| BillingLaws.CreditKeeps | backend/src/services/subscriptionService.js:2595-3075 | recording a payment keeps that law and the one-push-per-reference invariant |
| BillingLaws.ReversalKeeps | backend/src/services/subscriptionService.js:3125-3310 | reversing a payment keeps them too |
| BillingRefunds.RefundUndoesPushIff | backend/src/services/subscriptionService.js:3125-3310 | a refund takes back exactly what its payment added if and only if nothing moved the date since, or the payment was on time |
| BillingRefunds.RefundResidue | backend/src/services/subscriptionService.js:3125-3310 | a refund takes the date back by its payment's push, but for the lapsed time of a late payment once something else moved the date, or the distance to the deadline within the tolerance |
| BillingRefunds.StrictLawIff | backend/src/services/subscriptionService.js:3125-3310 | all along every run from an empty ledger, the date is the anchor plus the unrefunded pushes if and only if each refund that undoes a period finds the date its payment set, or finds one farther from it than the tolerance and undoes a payment that was on time |
| BillingRefunds.OnTimeRunsTakeBack | backend/src/controllers/billingWebhookController.js:241-258 | when every new payment or acceptance of a run comes no later than the deadline it finds, that condition holds at every refund of the run |
| BillingRefunds.LatePaymentLeavesResidue | backend/src/services/subscriptionService.js:3125-3310 | a concrete run with a late payment and its refund breaks the law without residue |
| BillingSettlement.RefundCloses | backend/src/controllers/billingWebhookController.js:160-226 | a refunded reference stays closed under every later run: never credited again, its charge never out of `refunded`, and events about it alone change neither date nor ledger nor label |
| BillingSettlement.OtherReference | backend/src/controllers/billingWebhookController.js:160-258 | an event about one reference changes no other reference's rows, label or invoice |
| BillingSettlement.RefundedTwiceUndoneOnce | backend/src/controllers/platformSubscriptionsController.js:978-1090 | the console's refund and the gateway's notice of it undo one period between them |
| BillingSettlement.RefundOfRecordedCloses | backend/src/controllers/billingWebhookController.js:241-258 | a whole refund of a recorded payment, told by the gateway, closes its reference |
| BillingSettlement.RefundBlocksIff | backend/src/controllers/billingWebhookController.js:429-442 | after a whole refund no later run of events records a payment of the reference if and only if the payment was recorded before |
| BillingSettlement.EarlyRefundBlocksNothing | backend/src/controllers/billingWebhookController.js:429-442 | a refund delivered before its payment leaves date and ledger alone, and the payment is credited when it comes |
| BillingSettlement.PaidAndInvoicedArePaidFor | backend/src/controllers/billingWebhookController.js:124-147 | after any run from an empty ledger, crashes included, a charge is paid only if the delivery that first recorded its reference brought all that was asked (or a discount, another currency or the plan's price decided), or brought less and a console acceptance of it was recorded; an invoice is queued at most once and only for such a charge |
| BillingSettlement.PaidInCents | backend/src/controllers/billingWebhookController.js:475-480 | where no currency differs and no discount is given, every paid or invoiced charge has a ledger row of at least its cents, unless the console accepted less or the charge asks for nothing |
| BillingSettlement.PaidLeavesOnlyByRefund | backend/src/controllers/billingWebhookController.js:160-164 | the only event that takes a charge out of `paid` is a whole refund of that charge, into `refunded` |
| BillingSettlement.ShortPaymentNeverSettles | backend/src/controllers/billingWebhookController.js:475-480 | a short payment delivered again any number of times, with any amount, changes nothing |
| BillingSettlement.PaymentLabelsPaidIff | backend/src/controllers/billingWebhookController.js:475-480 | a new payment in full labels its charge paid if and only if the second of its writes was committed |
| BillingSettlement.LabelsFollowIff | backend/src/controllers/billingWebhookController.js:429-480 | all along a run every charge the ledger settles is labelled paid or refunded if and only if no process died between a settling row and its label, and then at the end of the run too |
| BillingSettlement.StaysPendingIff | backend/src/controllers/billingWebhookController.js:160-213 | a pending charge whose payment is recorded stays pending if and only if no later event is an overdue or cancel notice, a whole refund or a console acceptance that reaches the label |
| BillingSettlement.CrashLeavesTheLabelBehind | backend/src/controllers/platformSubscriptionsController.js:224-259 | a process that dies between credit and label leaves the charge credited, and pending exactly until one of those events; no redelivery is one |
| BillingWebhook.ReferenceRoundTrip | backend/src/services/chargeIssuingService.js:1113 | the reference written on a charge is read back as the provider it was issued to, whatever its suffix |
| BillingWebhook.ReferenceNames | backend/src/controllers/billingWebhookController.js:92-117 | a reference names a provider if and only if it is the prefix, digits and nothing more or a colon and anything, and then the one the digits say |
| Decimal.ReadByPlace | backend/src/controllers/billingWebhookController.js:92-117 | a text of digits is read by place, the last digit units |
| BillingWebhook.OwnReferenceWins | backend/src/controllers/billingWebhookController.js:92-117 | money issued to a provider goes to it while it is active, and to nobody otherwise, whatever customer the delivery names |
| BillingWebhook.CustomerDecidesOtherwise | backend/src/controllers/billingWebhookController.js:92-117 | where the reference names nobody, the first provider linked to the gateway's customer is credited, while active |
| BillingWebhook.NobodyOtherwise | backend/src/controllers/billingWebhookController.js:92-117 | and nobody where none is linked |
| BillingWebhook.ResolvedIsActive | backend/src/controllers/billingWebhookController.js:92-117 | nothing is attributed to a provider that is not active |
| BillingWebhook.AccountsAreIndependent | backend/src/controllers/billingWebhookController.js:92-117 | however deliveries of different providers interleave, each account ends as its own deliveries alone would leave it |
| BillingWebhook.Desk.Record | backend/src/services/subscriptionService.js:2595-3075 | the recording step by step reaches the account and result of the specification, including duplicates, short payments and bad amounts |
| BillingWebhook.Desk.Reverse | backend/src/services/subscriptionService.js:3125-3310 | the reversal step by step reaches the specification's account and result, leaving the books alone when there is nothing to undo |
| BillingWebhook.Desk.MarkPaid | backend/src/controllers/billingWebhookController.js:124-133 | the named charge, if any, ends paid and nothing else changes |
| BillingWebhook.Desk.Enqueue | backend/src/controllers/billingWebhookController.js:140-147 | a paid charge enters the queue once; nothing else changes |
| BillingWebhook.Desk.Receive | backend/src/controllers/billingWebhookController.js:429-480 | the payment branch carries out a whole delivery, and each answer code says what was credited, labelled and left alone |
| BillingWebhook.Desk.ChangeLabel | backend/src/controllers/billingWebhookController.js:207-213 | a label changes exactly when the transition table allows it, and the code says which case it was |
| BillingWebhook.Desk.RefundNotice | backend/src/controllers/billingWebhookController.js:197-258 | a partial refund changes nothing; a whole one relabels and undoes the period at most once per payment |
| MigrationSteps.TableAfterUp | backend/src/config/migrations.js:3818-3829 | what an `up` of the two helpers leaves of each table depends only on what was there and on what the step creates and adds |
| MigrationSteps.MissingMeaning | backend/src/config/migrations.js:3823-3829 | the columns missing are exactly those declared that the table has not got |
| MigrationSteps.RestartableIff | backend/src/config/migrations.js:3818-3829 | such a step may be interrupted after any write and run again if and only if it creates before it adds |
| MigrationSteps.DisorderedStepDiverges | backend/src/config/migrations.js:3818-3829 | where that order is broken there is a schema from which an interrupted and repeated `up` ends elsewhere |
| MigrationSteps.IsAppliedIsSound | backend/src/config/migrations.js:6573-6591 | when `isApplied` answers yes, `up` would return and change nothing |
| MigrationSteps.AppliedAfterUp | backend/src/config/migrations.js:6573-6591 | after an `up` that returned, `isApplied` answers yes for a step that creates before it adds |
| MigrationRunner.DeclaredDependable | backend/src/config/migrations.js:3818-3829 | a step of the two helpers meets what the runner needs of it if and only if it creates before it adds |
| MigrationRunner.BaselineMakesNoDifference | backend/src/config/schema.js:61-74 | recording a step as present leaves the same schema and ledger as executing it |
| MigrationEffects.BaselineMeaning | backend/src/config/schema.js:61-74 | a step is recorded without being run only by a boot that found no ledger and the table of an older installation, and only if it is there already |
| MigrationRunner.CrashConvergence | backend/src/config/schema.js:12-74 | any number of boots cut short at any write, and the one that then completes, leave the schema and ledger of one uninterrupted boot, and none throws |
| MigrationEffects.FullBootMeaning | backend/src/config/schema.js:61-74 | a boot runs the steps whose ids the ledger lacks, in list order, each on the schema the one before it left, and records each that returned: all of them, or those before the first that throws |
| MigrationEffects.ReturnsIff | backend/src/config/schema.js:61-74 | a boot returns if and only if its pending steps, run in turn, all return |
| MigrationEffects.UndisturbedBootArrives | backend/src/config/schema.js:12-74 | a boot nothing disturbs comes to its end, write by write, and leaves what that one leaves |
| MigrationRace.InterleavedBoots | backend/src/config/schema.js:12-74 | in every interleaving of any number of boots, ids are recorded in list order without a gap and each once, a boot that returns leaves the ledger complete, and each boot runs at most one `up` another already recorded and never records it |
| MigrationRace.LoneBootReturns | backend/src/config/schema.js:12-74 | a boot on its own whose `up`s return comes to its end with every id recorded |
| MigrationRace.PendingIsEachOnce | backend/src/config/schema.js:61-74 | the ids a ledger gains are those of the list it lacked, each once |
| MigrationRace.FirstMissingIsNext | backend/src/config/schema.js:61-74 | a boot that has passed only recorded steps and meets one that is not is at the next pending id |
| MigrationDatabase.Database.CreateTableIfMissing | backend/src/config/migrations.js:3818-3821 | the table is there afterwards, as it was if it was there and as declared otherwise |
| MigrationDatabase.Database.MissingColumns | backend/src/config/migrations.js:3823-3829 | the declared columns the table lacks, in declared order |
| MigrationDatabase.Database.AddMissingColumns | backend/src/config/migrations.js:6583-6591 | an existing table ends with its own columns and every declared one; a missing table throws unless looked for first |
| MigrationDatabase.Database.Up | backend/src/config/migrations.js:6583-6591 | the loop over a step's actions returns and ends exactly as the step's specification says |
| MigrationDatabase.Database.Migrate | backend/src/config/schema.js:61-74 | the loop over the steps ends as the specified boot: schema, ledger and whether it returned |
| Seed.SettingsOnce | backend/src/config/seed.js:96-110 | a second pass changes no setting, and no pass changes a value the operator chose |
| Seed.SettingsMeaning | backend/src/config/seed.js:96-110 | a default is written where a visited provider had no value or one an older release had shipped, and nothing else changes |
| Seed.CentresMeaning | backend/src/config/seed.js:112-134 | a visited provider with no map centre is given the middle of the country, and the others keep theirs |
| Seed.LongestTrialIsLongest | backend/src/config/seed.js:245-255 | the trial plan is the longest on sale, of equals the lowest id, and there is none only if no plan offers one |
| Seed.PlanForMeaning | backend/src/config/seed.js:243-256 | the plan is the one asked for while on sale; else the longest trial, of equals the lowest id; else the unlimited one; else the first on sale |
| Seed.AddedAreGiven | backend/src/config/seed.js:257-309 | every subscription a pass adds is of a visited provider that had none: the unlimited plan for good for the platform, where there is one, and for anyone else a trial of the plan for its days, or fourteen |
| Seed.NoPlanIff | backend/src/config/seed.js:243-256 | no plan is found exactly when none is active and none is the unlimited one |
| Seed.OneSubscriptionEach | backend/src/config/seed.js:273-309 | existing subscriptions stay, and a visited provider with none ends with exactly one |
| Seed.SubscriptionsOnce | backend/src/config/seed.js:240-310 | a second pass changes no subscription, whatever plans are on sale by then |
| Seed.CatalogueOnce | backend/src/config/seed.js:390-423 | a second pass writes nothing to either catalogue table |
| Seed.CatalogueMeaning | backend/src/config/seed.js:341-423 | a provider that has a catalogue, or was not visited, keeps what it has; one without is given the platform's, if that has any, otherwise (not on the hosted edition) that of the lowest id that has any, otherwise none |
| Seed.BoxMeaning | backend/src/config/seed.js:341-359 | the platform's row is the lowest id of that kind |
| Seed.SecondPassChangesNothing | backend/src/config/seed.js:81-137 | two passes in a row: settings, centres and every provider's rows of both catalogue tables are as the first left them, and so are the subscriptions if and only if there is no plan to give the second time or no visited provider was left without one |
| Seed.Installation.SeedSettings | backend/src/config/seed.js:97-110 | one provider's missing and shipped values become the defaults; every other setting of everybody stays |
| Seed.Installation.SeedSettingsAndCentres | backend/src/config/seed.js:96-134 | the same for every provider visited, and each ends with a map centre, its own if it had one |
| Seed.Installation.SeedSubscriptions | backend/src/config/seed.js:240-310 | the loop writes the subscriptions the laws above are about |
| Seed.Installation.CatalogueSizes | backend/src/config/seed.js:214-224 | for every provider, the number of its rows in both tables together |
| Seed.Installation.CatalogueSource | backend/src/config/seed.js:341-359 | the platform's row if it has a catalogue, otherwise the lowest id that has one, otherwise nobody |
| Seed.Installation.CopyCatalogue | backend/src/config/seed.js:441-455 | the target gains the source's profiles in order in both tables; nobody else's rows change |
| Seed.Installation.SeedVendorCatalogue | backend/src/config/seed.js:390-423 | each visited provider with an empty catalogue ends with the source's profiles, a catalogue that is not empty is never written to, and the hosted edition copies from the platform only |
| Seed.Installation.SeedDefaults | backend/src/config/seed.js:81-137 | one pass leaves settings, centres, catalogues and subscriptions as those laws take a pass to be |
| Catalogue.ResentMeaning | backend/src/config/seed.js:490-531 | a resent copy ends with its own identities and the source's, gains one row per identity it lacked, and without overwriting keeps every row as it was |
| Catalogue.ResentKeepsRows | backend/src/config/seed.js:490-531 | each row a copy had keeps its place, id and identity, and its columns unless overwritten by the source |
| Catalogue.HeldIff | backend/src/config/seed.js:504-525 | a source row is in the overwritten copy if and only if it is the last of its identity where the copy had the identity, or the first where it had not, or the copy had the same columns on an older duplicate |
| Catalogue.FirstAndLastOf | backend/src/config/seed.js:504-525 | the first and the last of the source's rows of an identity are those with none before and none after |
| Catalogue.OverwritingBringsEverything | backend/src/config/seed.js:518-523 | when source rows of one identity agree, every source row ends in every copy with the source's columns |
| Catalogue.OverwritingBringsEverythingIff | backend/src/config/seed.js:518-523 | for a copy without duplicates, every source row ends in it if and only if source rows of one identity agree |
| Catalogue.SecondRunGainsNothing | backend/src/config/seed.js:490-531 | a second run inserts nothing, and without overwriting changes nothing |
| Catalogue.SecondOfTwoIsLost | backend/src/config/seed.js:509-523 | with two source rows of one identity, a copy that lacked it keeps the first although it is overwritten |
| Catalogue.Table.ResendTo | backend/src/config/seed.js:504-525 | the loop leaves one provider's rows as specified, everybody else's as they were, and counts what was missing and what was overwritten |
| Catalogue.PropagateCatalogue | backend/src/config/seed.js:490-531 | every provider asked for except the source is resent both tables, nobody else is touched, and each report counts the missing identities |
| Catalogue.TargetsAreDistinct | backend/src/config/seed.js:492-495 | no provider is visited twice |
| Catalogue.TargetsMeaning | backend/src/config/seed.js:491-495 | who is resent the catalogue: never the source, and of the others those asked for, or every provider proper |
| Catalogue.ReportMeaning | backend/src/config/seed.js:500-528 | a report's `added` is the number of source identities the two copies lacked, and its `updated`, when overwriting, the rest of the source's rows |
| Catalogue.LackingIsMissing | backend/src/config/seed.js:504-525 | the number of rows reported as added is the number of different source identities the copy lacked |
| SuspensionDates.SelectIsTheQuery | backend/src/config/migrations.js:5515-5521 | the lines read are exactly the status changes of the pending providers, newest first |
| SuspensionDates.FirstDecides | backend/src/config/migrations.js:5533-5546 | the first readable line of a provider in that order is its most recent readable change in the whole trail |
| SuspensionDates.BackfillMeaning | backend/src/config/migrations.js:5507-5553 | an undated suspended provider gets the time of its most recent readable change exactly when that ended in `suspended`, otherwise stays undated, and no other provider is written |
| SuspensionDates.TenantTable.Decide | backend/src/config/migrations.js:5533-5546 | the single pass decides each provider by its first readable line, skipping broken ones |
| SuspensionDates.TenantTable.Backfill | backend/src/config/migrations.js:5503-5553 | every row of the table ends as that meaning says |
| AccountColours.NextIsTheFirstLeastUsed | backend/src/config/waAccountColors.js:42-52 | a colour is given if and only if it is the palette's first among the least used |
| AccountColours.CountMeaning | backend/src/config/waAccountColors.js:42-52 | a colour counts as often as it occurs |
| AccountColours.NextAccountColor | backend/src/config/waAccountColors.js:42-52 | the counting loops give that colour |
| AccountColours.ColoursInTurn | backend/src/config/waAccountColors.js:25-52 | with none in use the colours are given in the order of the list, and then from its start |
| AccountColours.TheEightAreAPalette | backend/src/config/waAccountColors.js:25-27 | the eight colours on offer are all different, so the laws below hold of the palette in use |
| AccountColours.PassIsOptimal | backend/src/config/migrations.js:5796-5818 | the pass keeps every colour, colours every other number, and its most repeated colour is repeated max(what it was, ceil(k/8)) times, which no completion beats |
| AccountColours.NoCompletionBeatsTheBound | backend/src/config/migrations.js:5796-5818 | no way of colouring the blank numbers repeats a colour less than that |
| AccountColours.UpToEightAreAllDifferent | backend/src/config/migrations.js:5796-5818 | up to eight numbers whose colours differ all end different |
| AccountColours.SecondPassChangesNothing | backend/src/config/migrations.js:5796-5818 | run again, the pass gives nobody another colour |
| AccountColours.AccountTable.ColoursInUse | backend/src/config/migrations.js:5803-5807 | the colours already there, by provider, in the order of the rows |
| AccountColours.AccountTable.Backfill | backend/src/config/migrations.js:5796-5818 | every provider's numbers end as the pass over them alone leaves them, and no other field changes |
| ShellPrinter.EscapeReadsBack | backend/scripts/backup-target.js:35-37 | inside single quotes an escaped value reads back as the value, and the quotes close behind it |
| ShellPrinter.StripMeaning | backend/scripts/backup-target.js:69-71 | of an output, as command substitution takes it, the newlines at its end are gone and nothing else |
| ShellPrinter.PrintedLinesEvaluate | backend/scripts/backup-target.js:69-71 | evaluating the printed lines assigns exactly the printed values in order and does nothing else if no value holds a NUL; where one does, the model takes the text as not evaluating to assignments, since no shell text holds a NUL |
| ShellPrinter.PrintTarget | backend/scripts/backup-target.js:39-72 | the script's output is those lines for its settings, and evaluates to them |
| ShellPrinter.SqliteVariables | backend/scripts/backup-target.js:39-72 | for the file kind of database the consumer has four variables, and these values in them |
| ShellPrinter.ServerVariables | backend/scripts/backup-target.js:39-72 | for the others it has eleven |
| ShellPrinter.ServerPlace | backend/scripts/backup-target.js:39-72 | the client and the directories |
| ShellPrinter.ServerAddress | backend/scripts/backup-target.js:39-72 | the host and the port, with the default of the client |
| ShellPrinter.ServerLogin | backend/scripts/backup-target.js:39-72 | the user and the password |
| ShellPrinter.ServerDatabase | backend/scripts/backup-target.js:39-72 | the database, and the schema where the client has one |
| ShellPrinter.ServerSsl | backend/scripts/backup-target.js:39-72 | whether to use TLS and whether to check the certificate |
| Redaction.SplitJoins | backend/scripts/asaas-sandbox-e2e.js:209-215 | splitting a text at a secret loses nothing |
| Redaction.PiecesAreClean | backend/scripts/asaas-sandbox-e2e.js:209-215 | no piece holds the secret it was split at, and every piece was in the text |
| Redaction.CutMeaning | backend/scripts/asaas-sandbox-e2e.js:209-215 | up to where a secret is first met a text is kept, one mark stands for it, and the same is done to what follows |
| Redaction.CutAddsNothing | backend/scripts/asaas-sandbox-e2e.js:209-215 | taking one secret out never recreates another that cannot overlap the mark |
| Redaction.RedactedIsClean | backend/scripts/asaas-sandbox-e2e.js:209-215 | when no secret can overlap the mark, none is left, for any text and any order |
| Redaction.CleanIff | backend/scripts/asaas-sandbox-e2e.js:209-215 | secrets without brackets are always all removed if and only if none is part of the mark |
| Redaction.OneSecretIff | backend/scripts/asaas-sandbox-e2e.js:209-215 | a secret alone, of any characters, is always removed if and only if nowhere over the mark can a text complete it again without having held it earlier |
| Redaction.OverhangingSecretComesBack | backend/scripts/asaas-sandbox-e2e.js:209-215 | `abcdef[` is left behind in `abcdefabcdef[` |
| Redaction.BracketsNeverComeBack | backend/scripts/asaas-sandbox-e2e.js:209-215 | six opening brackets can overlap the mark and are nonetheless always removed |
| Redaction.CleanTextUnchanged | backend/scripts/asaas-sandbox-e2e.js:209-215 | a text that holds no secret comes through unchanged |
| Redaction.TrimKeepsCore | backend/scripts/asaas-sandbox-e2e.js:203-206 | trimming keeps everything between the first and last character that is not white space |
| Redaction.Redactor.Keep | backend/scripts/asaas-sandbox-e2e.js:203-206 | a trimmed value of six characters or more joins the set once; anything shorter is not kept |
| Redaction.Redactor.Clean | backend/scripts/asaas-sandbox-e2e.js:209-215 | the loop computes the specified text, and leaves no secret when none can overlap the mark |
| Cnpj.Generate | backend/scripts/asaas-sandbox-e2e.js:124-131 | the first root drawn with two different digits becomes a number that the validator accepts and whose two check digits complete the sums by place modulo 11 |
| Cnpj.CheckDigitsByPlace | backend/scripts/asaas-sandbox-e2e.js:108-122 | the check digits are the two that make the sums, weighted from the right by 2 to 9 and round again, multiples of 11, and 0 where a sum leaves 0 or 1 |
| Cnpj.ValidMeaning | backend/scripts/asaas-sandbox-e2e.js:134-139 | a text is valid exactly when it has fourteen digits, not all the same, and those two |
| Cnpj.DigitsMeaning | backend/scripts/asaas-sandbox-e2e.js:134-139 | of a text its digits count, each as the number it stands for, and nothing else |
| Cnpj.FormattingIsIgnored | backend/scripts/asaas-sandbox-e2e.js:134-139 | texts with the same digits are judged the same |
| Cnpj.ChangeUnnoticedIff | backend/scripts/asaas-sandbox-e2e.js:108-122 | changing one of the first twelve digits keeps both check digits if and only if both sums leave 0 or 1 before and after |
| Cnpj.OneChangedDigit | backend/scripts/asaas-sandbox-e2e.js:108-139 | one changed digit makes a valid number invalid, except at places 0 and 8 by 2 or 9 and at place 4 by 5 or 6, either way |
| Cnpj.SurvivesIff | backend/scripts/asaas-sandbox-e2e.js:108-139 | some valid number survives a change at a place by a difference if and only if the place is 0 or 8 and the difference 2 or 9, or the place is 4 and the difference 5 or 6, either way |

## Left out

- Generated ids: they come from counters shared by every provider, so the isolation
  theorems treat them as opaque and do not compare them (`tinsertReturningId`).
- Updates that set `tenant_id`, tables with a deployment-wide unique, and tables without a
  provider column: outside the isolation theorems.
- The order and the limit of a select, and that an unknown condition is not met: a
  condition of the model says whether it is true of a row.
- Builder methods that return something other than the builder, and chunk sizes of
  `tbatchInsert`.
- `forSoleTenant`, `forEveryTenant`, and jobs that never end: a job is given a
  number of steps, and one that has not returned by then counts as failed.
- Row-level security DDL (`applyRowLevelSecurity`, `removeRowLevelSecurity`,
  `assertRoleEnforcesRls`), waiting for row locks, and savepoints.
- Where the sentinel's query was written, fixtures and `runUnscoped`: only the verdict
  on the text is modelled. Case folding is ASCII, as in patterns without the unicode flag.
- Coupons, plan changes, credits, affiliate commissions and the catalogue's prices
  inside `recordPayment` and `reversePayment`: they enter as parameters of each event.
- BillingAccount.RefTextTellsApart: assumes gateway ids of at most 119 characters without a colon,
  which the gateway's are; longer ones are cut by the column and may collide.
- Console paths that are no event here: settling a charge the ledger has no row of
  (backend/src/controllers/platformSubscriptionsController.js:578-690), a payment typed in by hand
  (backend/src/controllers/platformBillingController.js:1044), canceling a charge
  (backend/src/controllers/platformSubscriptionsController.js:765), deadlines moved by courtesy
  (`setDeadlines`), and `settleAdopted` (backend/src/services/chargeIssuingService.js:1978-2055).
- Charges superseded by a reissue, references that name a charge by its own id, invoice
  cancellation, saved cards and the affiliates' transfers.
- Numbers beyond 2^53 in references and beyond 2^31 in the policy's cast.
- Column types, indexes, foreign keys and dialect differences of migrations; steps
  other than 0049, 0055 and those of the two helpers enter as functions of the schema
  with the runner's needs as hypotheses.
- MigrationRace.InterleavedBoots: leaves open what concurrent `up`s do to the schema, so it is about the ledger only.
  A boot that lags behind may add to a table a later step of another boot created, so the
  schema also depends on the order across steps.
- `adoptPlatformWhatsAppServer`, the trial events and dates `seedSubscriptions` writes beside a
  subscription, and timestamps such as `updated_at`.
- `propagateCatalogue` called without a source, which does nothing.
- Trail lines are taken as stored with a moment of their own; `created_at` is never null.
- The shell beyond words, quotes, newlines and assignments: anything else evaluates to
  "something else", which the printed lines never do.
- Redaction.RedactedIsClean: for several secrets of which one has a bracket only sufficient;
  what is left then depends on the order.
- `limparObjeto`, the sandbox script's requests and reports, argument parsing.
- Express wiring, authentication, the frontend, backups, S3, cryptography and logging.
