# Shaperail verification model

Shaperail compiles YAML resource definitions into REST services: SQL queries, a generated
store, an OpenAPI document, migrations. This project models the parts that are algorithms or
evolving state and proves what they keep, over all inputs and all runs.

- **Workspace** (`Workspace.dfy`): validation of a services workspace, cycle detection by
  depth-first search, and the start order.
- **Query compiler** (`Values`, `Schema`, `OrderBy`, `Arrangement`, `ListQuery`): list endpoints
  compiled to SQL as an AST with numbered placeholders, and an evaluator with NULLs,
  three-valued conditions and PostgreSQL's null ordering.
- **Paging** (`Keyset`, `Paging`): sessions of cursor pages over a table that changes between
  pages, and offset pages.
- **Generated store** (`Mutations`, `Store`, `StorePromises`, `StoreRuns`): insert, partial update,
  soft and hard delete and the lists as generated, refined to a map of live rows over every run,
  and what each request promises its caller.
- **Billing** (`Billing`, `InvoiceNumbers`) and **tenancy** (`Tenancy`): controllers that change
  shared rows. An update writes the row of its path, while its hook reads a row the client names;
  each rule is stated with the exact condition, over every run, under which it is kept.
- **Spans** (`Paths`, `Spans`): the walk that erases markers from a YAML tree and indexes them
  by field path.
- **Scanners** (`Interpolation`, `BracePath`, `Migrations`): `${VAR:default}` placeholders,
  `:param` paths, and the SQL line scanner behind the integer-drift warning.
- **Whole-document facts** (`OpenApi`) and **validator against generator** (`Validation`).
- Shared vocabulary: `Prelude`, `Strings`, `Decimals`, `LastWriter`, `Http`.

Operations that change state in the program are methods, over classes where the program keeps
fields, each proved equal to a specification function; the results are then proved about that
function. `dafny verify dfyconfig.toml` checks everything.

## What is false of the code, and when it holds

- The cursor condition is always "key greater than cursor", whatever the order of the rows. So
  cursor paging is complete exactly when no two rows the request is about are listed against
  their keys (`CursorsCompleteByRows`, for every request). Without a search term that can be read
  off the request (`CursorsCompleteExactly`): no sort field in effect both varies and is left
  free by the filters, and the key is not sorted downwards; or a filter fixes the key; or the
  filters cannot be met.
- A sort request that repeats fields can lose its tail, because there are as many slots as
  declared sort fields; it is honoured exactly when no lost slot can decide: its field, or the
  key, was asked for before, or its column cannot vary, or it is the key in ascending order
  (`RequestHonouredExactly`).
- Two filters, or two columns, whose sanitised names coincide share one Rust variable; so do a
  field `x_present` and the presence flag of `x`. A column whose variable is called `data` hides
  the request body from the declarations behind it, which then do not compile. Arguments keep
  their meaning exactly when neither happens (`FilterVariablesExact`, `UpdateVariablesExact`,
  `InsertVariablesExact`, `DataInFrontCaptures`); on insert, generated columns that always get
  the same value may share.
- A table stays within its columns' types exactly when the database refuses what they cannot hold
  (`RunTypedExactly`); the update statement itself writes a JSON null into a required column
  (`NullUpdateUntypes`).
- Update hooks check a row of the client's naming, not the row that is written. The tenancy hooks
  read the header `x-resource-id`: naming another row archives a project with a busy task, reopens
  an archived one, or takes a finished task back (`NamingAnotherArchivesBusy`,
  `NamingAnotherReopens`, `NamingAnotherDemotes`). The rules hold exactly when accepted updates
  pass the checks on the row they write (`RunQuietExactly`, `ArchivedStaysFrozenExactly`,
  `TasksOnlyAdvance`), for which it is enough that they name that row (`RunQuiet`,
  `ToldRunsFollowRules`).
- The billing hooks read `id` from the input. The resources do not declare it as an input field,
  so every invoice and payment update is refused, no invoice leaves draft and no payment is taken
  (`ShippedRun`). Where it is declared, naming another row brings a void invoice back or undoes a
  completed payment (`NamingAnotherRevivesVoid`, `NamingAnotherUndoesPayment`); statuses move by
  the rules exactly when accepted updates follow them on the row they write
  (`RunAdvancesExactly`).
- Whatever the hooks are told, balances are conserved exactly when a balance check holds that only
  payment creation makes (`StepConserves`, `RunConserves`). Even with every hook told the written
  row, reviving a failed payment, lowering a total and negative amounts break it (three reachable
  examples). An invoice is marked paid before the payment's own row is written
  (`StepSettles`, `LostWriteLeavesUnsettled`).
- Daily invoice numbers stop at 10000 (`KthRequestGetsK`, `TenThousandADay`).
- Span paths are distinct as long as no key is empty, holds a `.`, or ends in `[` digits `]` as an
  index is printed (`RenderInjective`); every other key occurs in a path that two places share,
  and in a document whose index gives one place the span of another (`UnsafeKeyCollides`,
  `UnsafeKeyMisleads`).
- The doc comment of `to_brace_path` says that `/literal:colon` stays as it is; the loop converts
  it, and so does the model (`LiteralColonIsConverted`). Recovery of a path holds exactly for
  paths without braces (`RecoveredExactly`).
- The comment on the last branches of `walk_node` says that aliases and bad values skip their
  span; the span is recorded before the branch is taken, and so it is in the model.
- A table opened and closed on one line stays open (`OneLineTableHidesAlter`). An `ALTER` line is
  read for what it says exactly when no opening line before it is left without a later closing
  one; otherwise it is read as a column called ALTER (`OpenExactly`, `AlterReadExactly`). The
  `CONSTRAINT` lines the table writer prints count as a column of that name
  (`ConstraintIsAColumn`).
- A resource whose type is called `ErrorResponse` replaces the error schema
  (`ErrorSchemaKeptExactly`), and endpoint order matters exactly when two inputs get one schema
  name and differ in their known fields or in what they require
  (`EndpointOrderIrrelevantExactly`, `ClashExactly`).
- A validated resource can still fail to generate, exactly when a default has the wrong JSON kind
  (`ValidatedGeneratesExactly`), or miss what its store relies on, exactly when `deleted_at` is
  transient or the key, or a stamped `updated_at` is the key (`ValidatedResourceExactly`).

## Model

| member | source | states |
|---|---|---|
| Workspace.HasCircularDeps | shaperail-codegen/src/workspace_parser.rs:84-95 | returns true exactly when the depends_on graph has a directed cycle |
| Workspace.DfsCycle | shaperail-codegen/src/workspace_parser.rs:97-120 | a reported cycle is real, read off the current path; otherwise the path set is restored and the finished nodes, with this one, list every dependency before its dependents |
| Workspace.ListedMeansAcyclic | shaperail-codegen/src/workspace_parser.rs:84-120 | a dependency-first listing of all services excludes any cycle |
| Workspace.BackEdgeClosesCycle | shaperail-codegen/src/workspace_parser.rs:112-114 | a dependency found on the current path closes a cycle |
| Workspace.TopoVisit | shaperail-codegen/src/workspace_parser.rs:190-207 | terminates on every graph, appends each name once, and on acyclic graphs keeps dependencies in front |
| Workspace.TopologicalOrder | shaperail-codegen/src/workspace_parser.rs:177-188 | lists every name once, cyclic or not; without cycles every prefix is closed under dependencies |
| Workspace.CheckReferences | shaperail-codegen/src/workspace_parser.rs:46-60 | accepts exactly when dependencies are known and not reflexive; an error names a real offender |
| Workspace.CheckPorts | shaperail-codegen/src/workspace_parser.rs:69-79 | accepts exactly when no two services share a port; an error names two that do |
| Workspace.ValidateWorkspace | shaperail-codegen/src/workspace_parser.rs:33-82 | accepts exactly the valid workspaces, and every error is justified |
| Workspace.StartOrderOfValidated | shaperail-codegen/src/workspace_parser.rs:33-82 | for accepted workspaces the start order is a permutation of the services in which every prefix is closed under dependencies |
| Values.CompareIsTotalOrder | shaperail-codegen/src/rust.rs:944-974 | value comparison with nulls last is a total order whatever the engine's strict order of values |
| OrderBy.GenerateOrderBy | shaperail-codegen/src/rust.rs:944-974 | the nested loops emit the full slot-by-field matrix of CASE clauses and the key; fails exactly on an unknown sort field, naming the first |
| OrderBy.OrderByPreservesMeaning | shaperail-codegen/src/rust.rs:944-974 | sorting by the emitted clauses is lexicographic comparison, over the requested slots, of the keys a reader gives each field type, then of the primary key, NULL columns included |
| OrderBy.SingleSortOrders | shaperail-codegen/src/rust.rs:1277-1283 | a request for one field lists numbers by their double, JSON, array and uuid columns by their text and every other type by the stored value; NULL comes last upwards and first downwards, and ties go by the key |
| OrderBy.CompareByIsOrder | shaperail-codegen/src/rust.rs:944-974 | any emitted clause list compares antisymmetrically, transitively and compatibly with ties |
| OrderBy.CompareByDecides | shaperail-codegen/src/rust.rs:944-974 | rows that tie on all clauses have the same key |
| OrderBy.RequestHonouredExactly | shaperail-codegen/src/rust.rs:944-974 | the emitted order is the order the whole request asks for, on all pairs of rows a table can hold, exactly when no dropped slot can decide anything (or the table can hold no row) |
| OrderBy.LostFieldChangesOrder | shaperail-codegen/src/rust.rs:944-974 | a dropped slot that can decide has two typed rows that it would have ordered differently |
| OrderBy.UntoldTail | shaperail-codegen/src/rust.rs:944-974 | on two rows with different keys, slots that repeat a field, come behind the key, tie, or ask for the key upwards change nothing |
| OrderBy.OrdinaryColumnsVary | shaperail-codegen/src/rust.rs:1277-1283 | columns of texts, files, integers, booleans, times and dates can hold two values that sort differently |
| OrderBy.DistinctRequestsFit | shaperail-runtime/src/db/sort.rs:36-57 | a request without repeated fields never exceeds the slots |
| Arrangement.ArrangeFacts | shaperail-codegen/src/rust.rs:764-800 | ordering a set of rows by a strict total order lists each once, increasingly |
| Arrangement.ArrangementUnique | shaperail-codegen/src/rust.rs:764-800 | there is only one such listing |
| ListQuery.GenerateListHelper | shaperail-codegen/src/rust.rs:560-746 | succeeds exactly when filter and sort fields exist, and then yields the specified three queries with their argument lists; an error names the first unknown filter, else the first unknown sort field |
| ListQuery.UnknownIsFirst | shaperail-codegen/src/rust.rs:560-746 | the field it fails for is the first unknown filter, or, with all filters known, the first unknown sort field |
| ListQuery.BuildCursorArgs | shaperail-codegen/src/rust.rs:663-672 | pushing filters, search, cursor, sort slots and limit gives the argument list the cursor query is numbered for |
| ListQuery.BuildRowArgs | shaperail-codegen/src/rust.rs:674-685 | the same for the offset query |
| ListQuery.PlaceholdersExact | shaperail-codegen/src/rust.rs:630-705 | each query uses exactly the placeholders 1 to the length of its argument list |
| ListQuery.FilterVariablesExact | shaperail-codegen/src/rust.rs:1249-1259 | whatever a request supplies and however texts parse, filter values reach their own placeholders exactly when no two filters sanitise to one variable |
| ListQuery.FiltersParseExactly | shaperail-codegen/src/rust.rs:1229-1275 | filters parse exactly when every supplied text is one of its field's type, and then each value is read at that type, absent where no text is; else the error names the first that is not |
| ListQuery.FilterTextIsFirst | shaperail-runtime/src/db/generated.rs:52-58 | a field's text is the one supplied first for it, and there is none exactly when none is supplied |
| Schema.SharedIdentifierExactly | shaperail-codegen/src/rust.rs:1440-1455 | two names of which both or neither start with a digit become one Rust identifier exactly when they agree character by character up to case and up to what is neither letter nor digit |
| Schema.SanitizedIsIdentifier | shaperail-codegen/src/rust.rs:1440-1455 | sanitising always gives an identifier, and leaves a name alone exactly when it is one |
| ListQuery.CountWhereExact | shaperail-codegen/src/rust.rs:923-942 | the three-valued WHERE is true exactly on live rows that satisfy every supplied filter and the search term |
| ListQuery.CursorRowExact | shaperail-codegen/src/rust.rs:748-800 | with the cursor condition it also demands a key above the cursor |
| ListQuery.CursorQueryExact | shaperail-codegen/src/rust.rs:687-828 | the statement in the cursor branch of the emitted helper, run with that branch's arguments, returns the first limit + 1 rows of the requested listing behind the cursor |
| ListQuery.OffsetQueryExact | shaperail-codegen/src/rust.rs:687-920 | the statement in the other branch, with its arguments, returns the requested window of the listing |
| ListQuery.TotalExact | shaperail-codegen/src/rust.rs:831-920 | the count statement of that branch, with its arguments, returns the number of rows in the listing |
| ListQuery.ListingFacts | shaperail-codegen/src/rust.rs:923-974 | the listing is exactly the wanted rows, once each, in the requested order |
| ListQuery.OffsetPagesPartition | shaperail-codegen/src/rust.rs:831-920 | consecutive offset pages concatenate to the listing |
| Keyset.SessionAscends | examples/incident-platform/generated/incidents.rs:105-164 | keys strictly increase across all pages of a session |
| Keyset.SessionMissesNothing | examples/incident-platform/generated/incidents.rs:105-164 | a key wanted at every fetch is shown by a session that finishes |
| Keyset.ExactlyOnce | examples/incident-platform/generated/incidents.rs:105-164 | and it is shown once |
| Keyset.StillSessionIsListing | examples/incident-platform/generated/incidents.rs:105-164 | over a fixed table the pages concatenate to all wanted rows in key order |
| Keyset.StillSessionIsBounded | examples/incident-platform/generated/incidents.rs:105-164 | and their number is bounded, so the session ends |
| Keyset.PageExactly | examples/incident-platform/generated/incidents.rs:140-164 | a page is the fetched rows up to the limit; it says there are more, and has its last row as cursor, exactly when rows were left out |
| Paging.ExactlyOnceUnderChange | shaperail-codegen/src/rust.rs:764-828 | as long as no two wanted rows can be listed against their keys (so always without a sort), whatever happens to the table between pages, a row that matches and stays live is returned exactly once by a session that reaches has_more = false |
| Paging.ConversationAscends | shaperail-codegen/src/rust.rs:764-828 | and no id repeats or goes back |
| Paging.ConversationShowsWanted | shaperail-codegen/src/rust.rs:764-828 | and every returned row matched when its page was fetched |
| Paging.StillConversation | shaperail-codegen/src/rust.rs:764-828 | over a fixed table the session is the listing and is bounded |
| Paging.CursorsCompleteExactly | shaperail-codegen/src/rust.rs:767 | without a search term, finished sessions over any table the resource can have show everything exactly when a filter fixes the key, or no sort field in effect both varies and is left unpinned and the key is not sorted downwards, or the filters cannot be met |
| Paging.CursorsCompleteByRows | shaperail-codegen/src/rust.rs:764-828 | for every request, searched or not, finished sessions show everything exactly when no two rows a table can hold and the request is about are listed against their keys |
| Paging.CalmNeverInverts | shaperail-codegen/src/rust.rs:944-974 | the condition read off the request excludes such rows, with a search term too |
| Paging.CalmShowsEverything | shaperail-codegen/src/rust.rs:764-828 | so such requests are answered in full, with a search term too |
| Paging.MeetableExactly | shaperail-codegen/src/rust.rs:923-942 | the filters can be met column by column exactly when some row matches |
| Paging.OpposedWalkLosesRow | shaperail-codegen/src/rust.rs:767 | two wanted rows listed against their keys make a session that finishes without the second |
| Mutations.GenerateUpdateBody | shaperail-codegen/src/rust.rs:1026-1110 | the loop over the schema emits the specified declarations, SET clauses and numbering |
| Mutations.GenerateInsertBody | shaperail-codegen/src/rust.rs:976-1024 | the loop emits one column, placeholder and argument per stored field |
| Mutations.UpdateVariablesExact | shaperail-codegen/src/rust.rs:1038-1063 | the update's arguments mean what their placeholders stand for, for all payloads, exactly when the generated names are distinct and none called `data` stands before a declaration that reads the body |
| Mutations.DataInFrontCaptures | shaperail-codegen/src/rust.rs:1217-1227 | a mutable field called data with another behind it hides the body: no payload gets its arguments |
| Mutations.PresentSuffixClashes | shaperail-codegen/src/rust.rs:1038-1039 | a field and another named like its presence flag clash |
| Mutations.InsertVariablesExact | shaperail-codegen/src/rust.rs:976-1215 | whatever a request carries and however documents parse, inserted values reach their own columns exactly when no column called `data` stands before one read from the body, and only generated columns that always get the same value share a variable |
| Mutations.UpdateMeansPayload | shaperail-codegen/src/rust.rs:1026-1110 | the updated row is the old one overridden at the present mutable fields, plus the stamp, nothing else |
| Mutations.InsertMeansValues | shaperail-codegen/src/rust.rs:976-1024 | the inserted row holds each field's value in its own column |
| Store.StepRefines | examples/incident-platform/generated/incidents.rs:268-620 | one request on the table does what it does on the map of live rows, with the same outcome |
| StoreRuns.RunRefines | examples/incident-platform/generated/incidents.rs:43-620 | so does every run of reads, writes and lists |
| StoreRuns.ListRefines | examples/incident-platform/generated/incidents.rs:43-260 | a list request answers with the page, or the window and total, of the live rows |
| StoreRuns.RunTypedExactly | shaperail-codegen/src/rust.rs:976-1165 | from a typed table every table of a run is typed exactly when the database accepts only values its columns can hold |
| StoreRuns.NullUpdateUntypes | shaperail-codegen/src/rust.rs:1217-1227 | an update that succeeds with a JSON null for a required column leaves a table that is not typed |
| StoreRuns.TypedTablesAreValid | shaperail-codegen/src/rust.rs:62-80 | the tables paging is judged by are tables of the store |
| StoreRuns.GoneStaysGone | shaperail-codegen/src/rust.rs:1112-1165 | a row that is not live is refused to every read, update and soft delete of any continuation and is in none of its lists: a softly deleted one unless a hard delete names it, any other unless its id is drawn |
| StorePromises.InsertKeepsPromise | shaperail-codegen/src/rust.rs:1167-1215 | an insert stores under a new key the row that holds the parsed document of each field sent, the declared default or NULL of each field not sent, and what was drawn for generated ones; it is refused for the first column that is garbled, or missing with no default and no way to be NULL, for a taken key, or by the database; nothing else changes |
| StorePromises.UpdateKeepsPromise | shaperail-codegen/src/rust.rs:1217-1227 | an update writes into the live row each document parsed at its field's own type, NULL for a JSON null, and the time into the stamp, and keeps the rest; it is refused for the first field that is garbled, for naming nothing, for a row that is not live, or by the database |
| StorePromises.FirstInIsFirst | shaperail-codegen/src/rust.rs:1167-1227 | the column a refusal names is in the order of the schema the first of its kind |
| StorePromises.StatementsKeepPromise | examples/incident-platform/generated/incidents.rs:268-620 | the generated statements, run on any table of the resource, do and answer what each request promises of the live and deleted rows |
| Store.SoftDeleteHides | examples/incident-platform/generated/incidents.rs:547-584 | a successful soft delete takes the row out of the live view and of every listing |
| Store.GeneratedStore.FindById | examples/incident-platform/generated/incidents.rs:268-302 | returns the live row with that id, or not found |
| Store.GeneratedStore.InsertRow | examples/incident-platform/generated/incidents.rs:321-421 | adds the row to the live rows, or fails and changes nothing |
| Store.GeneratedStore.UpdateById | examples/incident-platform/generated/incidents.rs:423-545 | overrides the live row at the present fields, or fails and changes nothing; an empty payload is refused |
| Store.GeneratedStore.SoftDeleteById | examples/incident-platform/generated/incidents.rs:547-584 | moves the row from the live to the deleted ones, or fails and changes nothing |
| Store.GeneratedStore.HardDeleteById | examples/incident-platform/generated/incidents.rs:586-620 | removes the row, live or deleted |
| Store.GeneratedStore.FindAllAfter | examples/incident-platform/generated/incidents.rs:43-164 | answers with the page the paging theorems speak of; a filter that does not parse is the error |
| Store.GeneratedStore.FindAllFrom | examples/incident-platform/generated/incidents.rs:165-260 | answers with the window and the total |
| Store.CutPage | examples/incident-platform/generated/incidents.rs:140-164 | drops the extra row and sets has_more and the cursor from it |
| Billing.StepAdvancesExactly | examples/enterprise-saas/resources/invoices.controller.rs:105-194 | from sound books, one request moves statuses only along the allowed edges (overdue to paid only through a payment), keeps payments' invoices and amounts and settled payments' statuses, exactly when it follows the status rules on the row it writes |
| Billing.RunAdvances | examples/enterprise-saas/resources/invoices.controller.rs:121-156 | then, over the whole run of both controllers, invoices that own payments are sent, overdue or paid, statuses only move forward, and void and paid are final |
| Billing.RunAdvancesExactly | examples/enterprise-saas/resources/invoices.controller.rs:105-194 | every state of a run follows from the one before along the edges exactly when each accepted update follows the status rules on the row it writes |
| Billing.ToldRunAdvances | examples/enterprise-saas/resources/invoices.controller.rs:106-110 | it does when every hook is told the row that is written |
| Billing.ShippedRun | examples/enterprise-saas/resources/invoices.controller.rs:106-118 | with no id in the input, as the resources are declared, every update is refused, invoices stay drafts and there is never a payment |
| Billing.NamingAnotherRevivesVoid | examples/enterprise-saas/resources/invoices.controller.rs:106-132 | a reachable state in which naming a draft moves a void invoice to pending |
| Billing.NamingAnotherUndoesPayment | examples/enterprise-saas/resources/payments.controller.rs:128-152 | a reachable state in which naming a waiting payment withdraws a completed one |
| Billing.AutoPaidIsDeserved | examples/enterprise-saas/resources/payments.controller.rs:211-217 | where statuses move by the rules, the unconditional update that marks an invoice paid finds it sent or overdue, or leaves it as it is |
| Billing.StepConserves | examples/enterprise-saas/resources/payments.controller.rs:74-94 | from conserved books, whichever row the hook reads, pending plus completed stays within every total exactly when the request passes the balance check on the row it writes |
| Billing.RunConserves | examples/enterprise-saas/resources/payments.controller.rs:74-94 | it does so in every state of any run exactly when each request does |
| Billing.StepSettles | examples/enterprise-saas/resources/payments.controller.rs:177-217 | invoices marked paid by a payment have received exactly their total after a request exactly when it leaves the marked ones alone and its row write brings in what a new mark counts on |
| Billing.RunSettles | examples/enterprise-saas/resources/payments.controller.rs:145-217 | with hooks told the written row, non-negative amounts, totals fixed after sending and failed payments left failed, books are conserved in every state, and settled in every state exactly when no marking write is lost |
| Billing.RunSettlesExactly | examples/enterprise-saas/resources/payments.controller.rs:177-217 | without any of these hypotheses, every state of a run is settled exactly when each request settles |
| Billing.RevivedPaymentOverpays | examples/enterprise-saas/resources/payments.controller.rs:145-152 | a reachable state, hooks told the written row, in which completing a failed payment overpays |
| Billing.LoweredTotalOverpays | examples/enterprise-saas/resources/invoices.controller.rs:121-131 | a reachable state, hooks told the written row, in which editing the total of a sent invoice overpays it |
| Billing.NegativePaymentOverpays | examples/enterprise-saas/resources/payments.controller.rs:74-94 | a reachable state, hooks told the written row, in which withdrawing a negative payment overpays |
| Billing.LostWriteLeavesUnsettled | examples/enterprise-saas/resources/payments.controller.rs:203-217 | a reachable state, hooks told the written row, in which a failed row write leaves an invoice paid that received nothing |
| Billing.Ledger.AddInvoice | examples/enterprise-saas/resources/invoices.controller.rs:6-95 | creates a draft, or fails and changes nothing |
| Billing.Ledger.EnforceInvoiceWorkflow | examples/enterprise-saas/resources/invoices.controller.rs:105-194 | refuses exactly as the specification of the hook: the named row, frozen statuses, the transition table, the roles |
| Billing.Ledger.UpdateInvoiceRow | examples/enterprise-saas/resources/invoices.controller.rs:105-194 | hook on the named row and write of the path's row together, with the whole new state |
| Billing.Ledger.AddPayment | examples/enterprise-saas/resources/payments.controller.rs:7-120 | refuses in the order of the hook, else adds one pending payment |
| Billing.Ledger.EnforcePaymentRules | examples/enterprise-saas/resources/payments.controller.rs:127-252 | refuses as specified, and marks the invoice paid when completed payments and this one cover the total |
| Billing.Ledger.UpdatePaymentRow | examples/enterprise-saas/resources/payments.controller.rs:127-252 | hook on the named row and write of the path's row together; the mark stays when the write fails |
| Billing.InvoiceHookExactly | examples/enterprise-saas/resources/invoices.controller.rs:105-194 | a named invoice may be edited exactly when it is not paid or void and no status is set or the move is one of five, pending to sent for finance or an admin and draft to void for an admin; each refusal has its own code |
| Billing.RunGuards | examples/enterprise-saas/resources/invoices.controller.rs:160-181 | in any run, an invoice that turns sent or void was updated so by that request, in the role finance or admin, or admin |
| Billing.PaymentHookExactly | examples/enterprise-saas/resources/payments.controller.rs:127-180 | a named payment may be edited exactly while it is waiting or failed, to refunded for an admin, to completed when its invoice exists |
| Billing.PaymentHookMarks | examples/enterprise-saas/resources/payments.controller.rs:177-240 | the hook touches the books only when a completion brings the completed payments to the total: then that invoice alone is paid and the log says by which payment |
| Billing.CreatePaymentExactly | examples/enterprise-saas/resources/payments.controller.rs:7-120 | a payment is taken exactly from a signed-in user for an amount the live, sent or overdue invoice has room for, and not twice; then it waits |
| Billing.CreateInvoiceExactly | examples/enterprise-saas/resources/invoices.controller.rs:6-95 | an invoice is drafted exactly by a signed-in user for an active customer |
| Billing.InvoiceRefusals | examples/enterprise-saas/resources/invoices.controller.rs:6-60 | each refusal of a new invoice is given exactly for its own cause |
| Billing.PaymentRefusals | examples/enterprise-saas/resources/payments.controller.rs:7-120 | each refusal of a new payment is given exactly for its own cause, the first in the order of the hook |
| Billing.WritesOneRow | examples/enterprise-saas/resources/invoices.controller.rs:105-194 | an accepted update or delete writes the row of its path and only what it names |
| Billing.AcceptedExactly | examples/enterprise-saas/resources/invoices.controller.rs:105-194 | an update or delete is accepted exactly when its row is there, its hook lets it pass and the database writes; a refusal by the hook is passed on and, but for a payment hook's mark, changes nothing |
| InvoiceNumbers.PaddedOrder | examples/enterprise-saas/resources/invoices.controller.rs:65-89 | below ten to the width, text order of padded numbers is number order |
| InvoiceNumbers.LastIsGreatest | examples/enterprise-saas/resources/invoices.controller.rs:69-77 | the query's last number has the prefix and is the greatest in text order |
| InvoiceNumbers.KthRequestGetsK | examples/enterprise-saas/resources/invoices.controller.rs:65-89 | for widths up to nine, the k-th request of a day gets number k up to ten to the width, after which every request proposes that last number again and is refused |
| InvoiceNumbers.TenThousandADay | examples/enterprise-saas/resources/invoices.controller.rs:88 | at the code's width that is ten thousand a day |
| Tenancy.RunQuiet | examples/multi-tenant/resources/projects.controller.rs:115-158 | no state of a run has a live task of an archived project in progress when every accepted update names the row it writes |
| Tenancy.StepQuietExactly | examples/multi-tenant/resources/projects.controller.rs:91-161 | from a quiet board, one request leaves no live task of an archived project in progress exactly when an accepted archiving finds the written project without busy tasks and an accepted move to in progress writes a task of an unarchived one |
| Tenancy.RunQuietExactly | examples/multi-tenant/resources/projects.controller.rs:115-158 | no state of a run has a live task of an archived project in progress exactly when every accepted update passes that check |
| Tenancy.NamingAnotherArchivesBusy | examples/multi-tenant/resources/projects.controller.rs:97-101 | a reachable state in which naming another project archives one with a task in progress |
| Tenancy.NamingAnotherReopens | examples/multi-tenant/resources/projects.controller.rs:97-122 | a reachable state in which naming an active project reopens an archived one |
| Tenancy.NamingAnotherDemotes | examples/multi-tenant/resources/tasks.controller.rs:107-111 | a reachable state in which naming another task takes a finished one back to in progress |
| Tenancy.ArchivedStaysFrozenExactly | examples/multi-tenant/resources/tasks.controller.rs:29-132 | an archived project stays archived, with none of its tasks added, moved on or reassigned, in every state of a continuation exactly when each accepted update leaves it so on the row it writes |
| Tenancy.TasksOnlyAdvance | examples/multi-tenant/resources/tasks.controller.rs:127-168 | every step of a run moves tasks by at most one rank up, done ones not reassigned, exactly when each accepted update follows the task rules on the task it writes; then no rank falls over the run |
| Tenancy.StepClimbsExactly | examples/multi-tenant/resources/tasks.controller.rs:106-191 | the same for one request |
| Tenancy.TasksStay | examples/multi-tenant/resources/tasks.controller.rs:106-191 | over any run tasks keep their project and deleted ones stay deleted |
| Tenancy.ToldRunsFollowRules | examples/multi-tenant/resources/tasks.controller.rs:107-111 | both rules hold in every state when every accepted update names the row it writes |
| Tenancy.StepMovesTasks | examples/multi-tenant/resources/tasks.controller.rs:106-191 | whatever row is named, one request keeps every task in its project and out of the way once deleted |
| Tenancy.NothingBusy | examples/multi-tenant/resources/projects.controller.rs:136-145 | the count is zero exactly when no live task of the project is in progress |
| Tenancy.BusyCounted | examples/multi-tenant/resources/projects.controller.rs:136-145 | the count is the number of live tasks of the project in progress |
| Tenancy.Tables.CountBusy | examples/multi-tenant/resources/projects.controller.rs:136-145 | the loop computes that count |
| Tenancy.Tables.ChangeProject | examples/multi-tenant/resources/projects.controller.rs:91-161 | hook on the named row and write of the path's row together, with the whole new state |
| Tenancy.Tables.AddTask | examples/multi-tenant/resources/tasks.controller.rs:10-98 | hook and row write together, with the whole new state |
| Tenancy.Tables.ChangeTask | examples/multi-tenant/resources/tasks.controller.rs:106-191 | hook on the named row and write of the path's row together, with the whole new state |
| Tenancy.ProjectHookExactly | examples/multi-tenant/resources/projects.controller.rs:91-161 | an update that sets a status passes exactly on a known project it does not reopen, and archives only for an admin while no live task of it is in progress; each refusal has its own cause |
| Tenancy.TaskHookExactly | examples/multi-tenant/resources/tasks.controller.rs:106-191 | a task update passes exactly in a project that is not archived, without reassigning a done task, moving one step on or not at all, to done only for its assignee or an admin |
| Tenancy.CreateTaskExactly | examples/multi-tenant/resources/tasks.controller.rs:10-98 | a task is created exactly by a signed-in user of the tenant whose live project it is, unless archived, and starts to do |
| Tenancy.NewProjectRefusals | examples/multi-tenant/resources/projects.controller.rs:10-84 | each refusal of a new project is given exactly for its own cause, the first in the order of the hook |
| Tenancy.NewTaskRefusals | examples/multi-tenant/resources/tasks.controller.rs:10-98 | each refusal of a new task is given exactly for its own cause, the first in the order of the hook |
| Tenancy.TaskRefusals | examples/multi-tenant/resources/tasks.controller.rs:106-191 | so is each refusal of a task update |
| Tenancy.WritesOneRow | examples/multi-tenant/resources/projects.controller.rs:91-161 | every other accepted request writes the row of its path and only what it names; a refused one nothing |
| Tenancy.AcceptedExactly | examples/multi-tenant/resources/projects.controller.rs:91-161 | a request is accepted exactly when its row is there, its hook lets it pass and the database writes; a refusal by the hook is passed on, and a refused request changes nothing |
| Paths.RenderInjective | shaperail-codegen/src/parser_saphyr.rs:128-162 | among keys that are not empty, hold no dot and do not end in an index, a path string names one place |
| Paths.UnsafeKeyCollides | shaperail-codegen/src/parser_saphyr.rs:128-162 | every other key occurs in an address that renders like a different one |
| Spans.UnsafeKeyMisleads | shaperail-codegen/src/parser_saphyr.rs:103-183 | and in a document of unique names whose index gives some place the span of another |
| Decimals.DecimalReadsBack | shaperail-codegen/src/parser_saphyr.rs:130-137 | printed indices read back, so they are distinct |
| Spans.WalkNode | shaperail-codegen/src/parser_saphyr.rs:103-183 | returns the erased document and adds exactly the specified spans to the map |
| Spans.WalkSequence | shaperail-codegen/src/parser_saphyr.rs:128-142 | the same for the items of a sequence, in order |
| Spans.WalkMapping | shaperail-codegen/src/parser_saphyr.rs:144-173 | the same for the entries of a mapping, compound keys skipped |
| Spans.SpanMap.Insert | shaperail-codegen/src/span.rs:40-50 | sets one entry and no other |
| Spans.SpanMap.Lookup | shaperail-codegen/src/span.rs:53-63 | finds exactly the recorded paths, with the map's file |
| Spans.LookupFindsNode | shaperail-codegen/src/parser_saphyr.rs:103-183 | where names are unique and safe, the path of any place yields the span of the node there, under any tags |
| Spans.LookupGivesMarkers | shaperail-codegen/src/parser_saphyr.rs:103-123 | that span has the node's own lines, its columns counted from one, all cut to 32 bits; without an end marker it ends where it starts |
| Spans.IndexIsSound | shaperail-codegen/src/parser_saphyr.rs:103-183 | every recorded path is the path of a place in the document |
| Spans.OneEntryPerNode | shaperail-codegen/src/parser_saphyr.rs:123 | and there are as many entries as untagged nodes under named keys |
| Spans.ErasureNavigates | shaperail-codegen/src/parser_saphyr.rs:123-182 | where names are unique, the returned document has a value exactly at the places of the tree, and it is the erasure of the node there |
| Spans.DocumentShowsTree | shaperail-codegen/src/parser_saphyr.rs:85-182 | at every place the returned document shows what the tree holds there: the scalar itself, the raw text, null for aliases and bad values, as many items, the written names in order |
| Spans.ErasureComesFrom | shaperail-codegen/src/parser_saphyr.rs:123-182 | in any document, every value of the returned one is the erasure of a node at its place |
| Spans.KeysKeepOrder | shaperail-codegen/src/parser_saphyr.rs:142-172 | where names are unique, a mapping's names come out in the order they were written, compound keys left out |
| Spans.NamesDiffer | shaperail-codegen/src/parser_saphyr.rs:149-153 | scalars used as keys that are not texts get different names |
| Spans.KeyNames | shaperail-codegen/src/parser_saphyr.rs:149-153 | a text key is its own name, another scalar goes by what it prints as, and exactly compound keys have no name |
| Spans.NamesOfConstants | shaperail-codegen/src/parser_saphyr.rs:151 | null and booleans print as their constructors do |
| Spans.NamesOfNumbers | shaperail-codegen/src/parser_saphyr.rs:151 | so do integers, in decimal with their sign, and floats |
| Spans.IndexCoversDocument | shaperail-codegen/src/parser_saphyr.rs:61-82 | where names are unique, the index covers exactly the places of the returned document |
| Spans.ParseWithSpans | shaperail-codegen/src/parser_saphyr.rs:61-82 | the first document is erased and indexed, with as many spans as nodes where names are unique and safe; no document is an error |
| Interpolation.InterpolateEnv | shaperail-codegen/src/config_parser.rs:24-78 | the index loop computes the recursive specification |
| Interpolation.ReadPlaceholder | shaperail-codegen/src/config_parser.rs:32-74 | one placeholder: the closing brace, the value, and where reading goes on |
| Interpolation.ResolveBody | shaperail-codegen/src/config_parser.rs:42-70 | the name ends at the first colon; the environment comes before the default |
| Interpolation.ScansSentence | shaperail-codegen/src/config_parser.rs:24-78 | a printed token sequence is read token by token, values are never read again, and scanning goes on behind it |
| Interpolation.PrintThenInterpolate | shaperail-codegen/src/config_parser.rs:24-78 | printing a sentence and interpolating it gives the concatenated meanings |
| Interpolation.EveryTextSplits | shaperail-codegen/src/config_parser.rs:24-78 | every text is a sentence followed by nothing or by a malformed placeholder |
| Interpolation.SucceedsExactly | shaperail-codegen/src/config_parser.rs:24-78 | interpolation succeeds exactly on sentences whose variables are set or have a default |
| Interpolation.FailsExactly | shaperail-codegen/src/config_parser.rs:33-72 | and fails, with which error, exactly on an unset variable without default or on an unterminated, empty or nameless placeholder |
| BracePath.ToBracePath | shaperail-core/src/endpoint.rs:410-437 | the scan computes the recursive specification |
| BracePath.IdentEnd | shaperail-core/src/endpoint.rs:416-420 | the end of the longest identifier |
| BracePath.RecoveredExactly | shaperail-core/src/endpoint.rs:410-437 | the explicit inverse recovers a path exactly when it has no braces |
| BracePath.InjectiveOnBraceFree | shaperail-core/src/endpoint.rs:410-437 | different brace-free paths stay different |
| BracePath.BracesCollide | shaperail-core/src/endpoint.rs:410-437 | with braces they need not |
| BracePath.FixedExactly | shaperail-core/src/endpoint.rs:410-437 | conversion leaves alone exactly the paths without a parameter, and converting twice is converting once |
| BracePath.EveryParamConverted | shaperail-core/src/endpoint.rs:410-447 | at every colon with an identifier behind it the longest identifier is put in braces in place, and the text on either side is converted on its own |
| BracePath.OneLongerPerParam | shaperail-core/src/endpoint.rs:410-437 | the result is longer by the number of parameters |
| BracePath.ColonInsideSegment | shaperail-core/src/endpoint.rs:409-415 | a colon inside a segment is converted like any other |
| BracePath.LiteralColonIsConverted | shaperail-core/src/endpoint.rs:409 | so is the documentation's example |
| Migrations.DriftState.ApplyMigration | shaperail-cli/src/commands/check.rs:216-249 | one file's lines write its declarations to the map, in order; no open table is carried over |
| Migrations.CheckIntegerColumnDrift | shaperail-cli/src/commands/check.rs:163-209 | the loops report the drifts of the final map |
| Migrations.LastDeclarationWins | shaperail-cli/src/commands/check.rs:163-249 | an entry exists exactly for declared columns and is the last declaration over all files |
| Migrations.WarnedExactly | shaperail-cli/src/commands/check.rs:190-208 | a warning is given exactly for integer fields whose last declaration is INTEGER, naming its file |
| Migrations.PrintedStatementsReadBack | shaperail-cli/src/commands/check.rs:216-330 | from printed CREATE and ALTER statements the scanner recovers exactly what they declare, and leaves no table open |
| Migrations.AlterReadExactly | shaperail-cli/src/commands/check.rs:239-247 | behind any lines, a printed ALTER is read for what it says exactly when they leave no table open, or when it says just what the misreading gives |
| Migrations.OpenExactly | shaperail-cli/src/commands/check.rs:216-237 | after some lines a table is open exactly when one of them opens a table and no later one starts with a closing parenthesis |
| Migrations.OneLineTableHidesAlter | shaperail-cli/src/commands/check.rs:224-247 | after a table written on one line, whatever its body, the table is open and a following ALTER is lost |
| Migrations.ConstraintIsAColumn | shaperail-cli/src/commands/check.rs:279-292 | a constraint line of a table body declares a column CONSTRAINT with the constraint's name as type |
| Migrations.OpenParses | shaperail-cli/src/commands/check.rs:253-275 | the opening line gives back the table's name |
| Migrations.ColumnParses | shaperail-cli/src/commands/check.rs:279-292 | a column line gives back name and type, whatever follows |
| Migrations.AlterParses | shaperail-cli/src/commands/check.rs:295-324 | an ALTER line gives back table, column and type |
| LastWriter.LastWriteStays | shaperail-cli/src/commands/check.rs:216-249 | after any list of writes each key holds its last one |
| OpenApi.Generate | shaperail-codegen/src/openapi.rs:12-120 | the loops build the specified paths and schemas, schemas being objects with properties and a required list |
| OpenApi.BuildInputSchema | shaperail-codegen/src/openapi.rs:158-185 | known input fields become properties; only create lists the required ones, in input order |
| OpenApi.BuildResourceSchema | shaperail-codegen/src/openapi.rs:128-156 | visible fields become properties; those required and not generated are listed |
| OpenApi.RefsResolve | shaperail-codegen/src/openapi.rs:501-595 | every `$ref` of every operation resolves to a key of components.schemas (Reference Object, section 4.8.23 of OpenAPI 3.1.0), for any resources |
| OpenApi.OperationsMeanTheirOwn | shaperail-codegen/src/openapi.rs:64-92 | every operation stands for an endpoint at its versioned, braced path and method; where differing schemas have different names, its body refers to the schema of its own action's input (none without input, in place for an upload), its success to the schema of its own resource (none for a delete), its errors to the error schema |
| OpenApi.PathsHoldOperations | shaperail-codegen/src/openapi.rs:68-92 | every endpoint's path and method are in the document, with an operation that stands for an endpoint there |
| OpenApi.LastOperationStands | shaperail-codegen/src/openapi.rs:71-88 | where several actions of a resource share a path and a method, the operation of the last of them by name is the one in the document |
| OpenApi.PascalWord | shaperail-codegen/src/openapi.rs:663-676 | a word keeps its letters, the first in upper case and the others in lower |
| OpenApi.PascalWords | shaperail-codegen/src/openapi.rs:663-676 | and words are joined without their underscores |
| OpenApi.ResourceSchemaShows | shaperail-codegen/src/openapi.rs:128-156 | a resource's schema shows exactly its visible fields, each with its own documentation, and demands in field order those required and not generated |
| OpenApi.InputSchemaShows | shaperail-codegen/src/openapi.rs:158-185 | an input's schema shows exactly its known fields and demands in input order the required ones, for `create` alone |
| OpenApi.ErrorSchemaKeptExactly | shaperail-codegen/src/openapi.rs:17-62 | the error schema is the one error responses mean exactly when no resource type is called ErrorResponse |
| OpenApi.ResourceOrderIrrelevant | shaperail-codegen/src/openapi.rs:47-49 | permuting resources with distinct names changes nothing |
| OpenApi.EndpointOrderIrrelevant | shaperail-codegen/src/openapi.rs:57-92 | nor does reordering the endpoints of each resource, unless two inputs of one name build different schemas |
| OpenApi.EndpointOrderIrrelevantExactly | shaperail-codegen/src/openapi.rs:57-66 | for one resource, no reordering matters exactly when no two inputs of one name build different schemas |
| OpenApi.ClashExactly | shaperail-codegen/src/openapi.rs:158-185 | inputs of one name build different schemas exactly when their known fields, as sets, or their required lists differ |
| OpenApi.CreateUnderscoreClashes | shaperail-codegen/src/openapi.rs:663-676 | `create` and `create_` with the same input clash exactly when one of its known fields is required |
| OpenApi.SortForgetsOrder | shaperail-codegen/src/openapi.rs:47-49 | sorting by distinct keys forgets the given order |
| Validation.ValidateResource | shaperail-codegen/src/validator.rs:20-356 | reports exactly the violations it models, so nothing exactly for resources without them |
| Validation.AcceptsExactly | shaperail-codegen/src/validator.rs:20-356 | the modelled checks accept exactly resources with one primary key, fields whose references are uuids, keys supplied, transient fields without storage and taken by an input, and endpoints with method, path and known fields |
| Validation.ValidatePrimary | shaperail-codegen/src/validator.rs:41-50 | counting finds no primary key, or several, exactly when that is so |
| Validation.ValidateReach | shaperail-codegen/src/validator.rs:176-200 | a transient field is reported exactly when no endpoint takes it as input |
| Validation.GenerateResourceModule | shaperail-codegen/src/rust.rs:62-210 | runs the parts of the generator (routes, one list helper per collection endpoint, one initialiser per stored column, insert and update) and stops at the first failure among them |
| Validation.GeneratesExactly | shaperail-codegen/src/rust.rs:62-210 | it reaches its end exactly when methods and needed paths are set, filter and sort fields of collection endpoints exist, and stored defaults have the right kind |
| Validation.FailureJustified | shaperail-codegen/src/rust.rs:62-210 | what stops it is really there, and nothing of an earlier kind is wrong |
| Validation.HelpersInOrder | shaperail-codegen/src/rust.rs:527-542 | there is one list helper per GET whose path has no `:id`, in order, each from its own endpoint's filters, search and sort fields |
| Validation.InitialisersInOrder | shaperail-codegen/src/rust.rs:1167-1215 | there is one initialiser per stored column, in order: drawn when generated, with the default to fall back on where declared, else NULL or a refusal as the record has an Option or not |
| Validation.ValidatedGeneratesExactly | shaperail-codegen/src/rust.rs:1393-1430 | a validated resource generates exactly when its stored defaults have the right kind |
| Validation.ValidatedFieldsKnown | shaperail-codegen/src/validator.rs:319-349 | validation gives every endpoint what the query theorems ask |
| Validation.ValidatedResourceExactly | shaperail-codegen/src/validator.rs:352-356 | validation gives the store what its theorems ask exactly when deleted_at and updated_at are ordinary columns |

## Left out

- Assumptions: uuids drawn for new rows are fresh, cursors decode to what was encoded, and the database's verdict on constraints the model does not know (unique, foreign key, check) is a parameter called `accepted` or `written`.
- The engine's order of non-null values (collations included), text rendering, rounding to double precision, full-text matching and the text and JSON parsers are parameters of the query model; only their laws are used. One law is that uuids are ordered alike as values and as text.
- The rows a table can hold have every stored column with a value of its type, an enum one of its declared values, and NULL only where the generated record has an Option; length and range limits of columns are not modelled.
- The page limit is at least 1 because `clamped_limit` makes it so (shaperail-runtime/src/db/pagination.rs:19-26); larger requests are cut to 100 there, which the model leaves to the caller.
- Races inside one request, transactions, clocks and intervals: each request is one atomic step, and the five-minute duplicate check is a parameter.
- Literal SQL, Rust and JSON text of the outputs, except where a scanner reads it; the `"` and `$` details of emitted SQL are an AST.
- Variables of the generated code whose name is a Rust keyword; the model tracks clashes among generated variables, the `id` parameter and the `data` parameter.
- Numeric filters compare exactly, where the code compares doubles.
- An update statement with no mutable field and no stamp has an empty SET list; the model treats it as changing nothing.
- Billing and tenancy: the runtime's own checks before a hook (authentication, tenant, owner, input shape) can only refuse a request; requests they refuse are left out.
- Billing amounts are unbounded integers; 64-bit overflow, timestamps sent_at and paid_at, audit entries other than auto_paid, and tenant scoping of rows are not modelled.
- Tenancy: plan limits, name uniqueness and assignee membership are one parameter, `admitted`; organisations and users are not modelled.
- Invoice numbers: requests follow one another, and the database is taken to order digits as their codes.
- Spans: YAML parsing itself; floats are kept as the text they print as; column arithmetic wraps as in a release build.
- Migrations: ASCII upper case and spaces only, files given in sorted order and already split into lines; reading the directory.
- Strings are sequences of characters; byte offsets of UTF-8 text are not modelled, which changes nothing because every delimiter is ASCII.
- OpenApi: type names are built with ASCII case only; parameters, responses' text, security and extensions are the opaque part of an operation; paths and methods are one key.
- Validation.ValidateResource: the checks on names, version, enum values, array items, formats, tenant key, hooks, events, jobs, uploads, relations and indexes, each of which reads one field or list on its own; nothing the generator or the store relies on follows from them.
- The saga executor, job queue, cache, rate limiter, filter and sort parameter parsing, proto and TypeScript output, scaffolding and the other command-line tools.
