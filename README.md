# Property management core, modelled in Dafny

This project models the client and edge-function logic of a small property-management system. Properties hold units; a unit is AVAILABLE, on HOLD, LEASED or INACTIVE. Tenants sign leases, which run from draft to active to ended or terminated. Leases produce payments that are pending, paid, failed or refunded. Tenants raise maintenance requests.

The real lease and payment work is done by stored procedures (`sp_confirm_lease`, `sp_post_payment`, `global_search`, …) whose bodies are not part of this model. What the model covers is what the client does around them:

- the unit-status consistency repair, which exists in three copies;
- the lease lifecycle steps: draft, confirm, activate, terminate;
- payment classification, the dashboard counters, and the audit-log console buffer;
- maintenance request creation and status updates;
- the label, colour, initials, elapsed-time, search-ordering and CSV helpers.

Modelling choices:

- **The store.** Every call to the database client is one step on in-memory tables held by the class `Store.Db`. Each call may fail (a `fails` flag) and answers `{ data, error }` as the client does.
- **Remote procedures.** A procedure call is recorded in `Db.rpcLog` and answered with a reply given by the caller. Its effect on the tables is not modelled.
- **Values.** Dates are integers: UTC day numbers for date columns, milliseconds for timestamps. Money is `real`. Nullable columns are `Option`.
- **Inputs standing for the outside world.** The current time, the month of a date in the local time zone (`monthOf`), the random choices (`pick`) and the random lease generator (`mk`) are parameters.

Modules:

- **Foundations.** `Wrappers`, `Schema` (enumerations and row shapes), `Store` (tables and calls), `Text` (JavaScript string operations), `Render` (what React renders for `{v && <el/>}`).
- **The repair.** `Repair` holds the repair as functions, and the lemmas about it.
- **Pages, dialogs and widgets.** One module each, named after the component it models.

## Model

| member | source | states |
|---|---|---|
| Schema.UnitStatusConstantsExact | src/integrations/supabase/types.ts:896 | The unit_status constant array lists AVAILABLE, HOLD, LEASED, INACTIVE, each once, in enum order. |
| Schema.LeaseStatusConstantsExact | src/integrations/supabase/types.ts:883 | The lease_status array lists exactly draft, active, ended, terminated, once each, in order. |
| Schema.PaymentStatusConstantsExact | src/integrations/supabase/types.ts:893 | The payment_status array lists exactly pending, paid, failed, refunded, once each, in order. |
| Schema.PaymentMethodConstantsExact | src/integrations/supabase/types.ts:892 | The payment_method array lists exactly cash, card, online, check, once each, in order. |
| Schema.MaintenanceStatusConstantsExact | src/integrations/supabase/types.ts:885-891 | The maintenance_status array lists the five statuses once each, in order. |
| Schema.MaintenanceCategoryConstantsExact | src/integrations/supabase/types.ts:884 | The maintenance_category array lists the four categories once each, in order. |
| Schema.AppRoleConstantsExact | src/integrations/supabase/types.ts:882 | The app_role array lists admin, owner, tenant, ops once each, in order. |
| Schema.PropertyStatusConstantsExact | src/integrations/supabase/types.ts:894 | The property_status array lists its three members once each, in order. |
| Schema.PropertyTypeConstantsExact | src/integrations/supabase/types.ts:895 | The property_type array lists its three members once each, in order. |
| Schema.UnitStatusRoundTrip | src/integrations/supabase/types.ts:754 | A unit status reads back as itself; a string is a unit status iff it is in the constants, and then it is that status's name. |
| Schema.LeaseStatusRoundTrip | src/integrations/supabase/types.ts:742 | The same round trip for lease statuses. |
| Schema.PaymentStatusRoundTrip | src/integrations/supabase/types.ts:751 | The same round trip for payment statuses. |
| Schema.PaymentMethodRoundTrip | src/integrations/supabase/types.ts:750 | The same round trip for payment methods. |
| Schema.MaintenanceStatusRoundTrip | src/integrations/supabase/types.ts:744-749 | The same round trip for maintenance statuses. |
| Schema.MaintenanceCategoryRoundTrip | src/integrations/supabase/types.ts:743 | The same round trip for maintenance categories. |
| Schema.LookupName | src/integrations/supabase/types.ts:879-899 | In a list of members whose names are distinct, looking a member up by its name finds that member. |
| Schema.LookupExact | src/integrations/supabase/types.ts:879-899 | Looking a string up succeeds iff the string is one of the listed names. |
| Schema.Lookup | src/integrations/supabase/types.ts:879-899 | A found member is listed and has the looked-up name; when nothing is found, no listed member has that name. |
| Schema.LookupFirst | src/components/GlobalSearch.tsx:76-77 | Like `find`, the lookup returns the first member with the name: a member whose predecessors all have other names is the one found. |
| Store.ActiveLeaseUnitIds | src/pages/Reports.tsx:48-53 | The selected ids are exactly the unit ids of leases whose status is active. |
| Store.Answer | src/pages/Reports.tsx:48-51 | A call fails iff it answers an error, and it answers data exactly when it does not fail. |
| Store.UnitIds | src/pages/Reports.tsx:64-66 | The selected ids are the unit ids, one per row, in order. |
| Store.TenantIds | src/pages/Leases.tsx:127-130 | The selected ids are the tenant ids, one per row, in order. |
| Store.SetUnitStatusIn | src/pages/Reports.tsx:57-60 | The update sets the status of exactly the units whose id is listed; every other row and every other column is unchanged. |
| Store.SetUnitStatusNotIn | src/components/dashboard/DataQualityWidget.tsx:58-61 | The update sets the status of exactly the units whose id is not listed; everything else is unchanged. |
| Store.SetLeaseStatusEq | src/components/leases/TerminateLeaseDialog.tsx:38-41 | Only the lease with the given id gets the new status; all other rows are unchanged. |
| Store.DeleteLeaseEq | src/pages/Leases.tsx:108 | The remaining leases are exactly those whose id differs from the deleted one. |
| Store.AvailableUnitIds | src/pages/Leases.tsx:121-125 | The selected ids are exactly the ids of AVAILABLE units. |
| Store.AvailableUnits | src/components/leases/AddLeaseDialog.tsx:101-104 | The selected rows are exactly the AVAILABLE units. |
| Store.Limit | src/pages/Leases.tsx:121-130 | `.limit(n)` is `Text.Take`: the first min(n, size) rows, in order. |
| Store.PatchRequestEq | src/components/maintenance/UpdateStatusDialog.tsx:80-83 | Only the request with the given id is patched: status is set; completion time and cost are set only when the patch names them. |
| Store.Db.SelectActiveLeaseUnitIds | src/pages/Reports.tsx:48-51 | The read answers the active-lease unit ids of the current table, or an error. |
| Store.Db.SelectUnitIds | src/pages/Reports.tsx:64-66 | The read answers the unit ids of the current table, or an error. |
| Store.Db.SelectAvailableUnitIds | src/pages/Leases.tsx:121-125 | The read answers the first `limit` AVAILABLE unit ids, or an error. |
| Store.Db.SelectAvailableUnits | src/components/leases/AddLeaseDialog.tsx:100-104 | The read answers the AVAILABLE unit rows, or an error. |
| Store.Db.SelectTenantIds | src/pages/Leases.tsx:127-130 | The read answers the first `limit` tenant ids, or an error. |
| Store.Db.UpdateUnitStatusIn | src/pages/Reports.tsx:57-60 | A failing update changes nothing and answers an error; otherwise the listed units get the status. |
| Store.Db.UpdateUnitStatusNotIn | src/components/dashboard/DataQualityWidget.tsx:58-61 | A failing update changes nothing; otherwise every unit not listed gets the status. |
| Store.Db.UpdateUnitStatusEq | src/components/leases/TerminateLeaseDialog.tsx:46-49 | A failing update changes nothing; otherwise the unit with that id gets the status. |
| Store.Db.UpdateLeaseStatusEq | src/components/leases/TerminateLeaseDialog.tsx:38-41 | A failing update changes nothing; otherwise the lease with that id gets the status. |
| Store.Db.DeleteLease | src/pages/Leases.tsx:108 | A failing delete changes nothing; otherwise the lease with that id is removed. |
| Store.Db.InsertLeases | src/pages/Leases.tsx:145-148 | A failing insert changes nothing; otherwise the rows are appended and returned as given. |
| Store.Db.InsertRequest | src/components/maintenance/AddMaintenanceDialog.tsx:87-96 | A failing insert changes nothing; otherwise the row is appended. |
| Store.Db.UpdateRequestEq | src/components/maintenance/UpdateStatusDialog.tsx:80-83 | A failing update changes nothing; otherwise the request with that id is patched. |
| Store.Db.Rpc | src/integrations/supabase/types.ts:670-739 | A procedure call is appended to the call log and answers the given reply; no table changes. |
| Repair.Excluding | src/pages/Reports.tsx:68-70 | An id is in the AVAILABLE target list iff it is a unit id and not an active-lease unit id. |
| Repair.DerivedStatus | src/pages/Reports.tsx:53-70 | Definition: LEASED for a unit among the active ids, AVAILABLE otherwise. Proved about in Repair.RepairPostState. |
| Repair.Rederived | src/pages/Reports.tsx:53-77 | Reference definition: each unit gets its derived status, other columns kept. Repair.TwoPassRepairRederives ties the repair to it. |
| Repair.ActiveIdsRead | src/pages/Reports.tsx:48-53 | Definition: the active ids as the code sees them, `[]` on a failed read. Its consequence is Repair.LeaseReadFailureCreatesMismatch. |
| Repair.AfterLeasedPass | src/pages/Reports.tsx:53-61 | Definition: the LEASED update, issued only for a non-empty id list. Proved about in Repair.TwoPassRepairRederives. |
| Repair.AvailableTargets | src/pages/Reports.tsx:64-70 | Definition: the unit ids read after the first pass, minus the active ids, `[]` on a failed read. Proved about in Repair.RepairTargetsPartition. |
| Repair.TwoPassRepair | src/pages/Reports.tsx:44-87 | Definition: the repair of the page and of the edge function, with each call able to fail. Proved about in Repair.TwoPassRepairRederives, RepairPostState, RepairIdempotent and RepairDependsOnlyOnActiveIds. |
| Repair.WidgetRepair | src/components/dashboard/DataQualityWidget.tsx:42-61 | Definition: the widget repair, with an unconditional `not in` AVAILABLE pass. Proved about in Repair.WidgetAgreesWithTwoPass. |
| Repair.TwoPassRepairRederives | src/pages/Reports.tsx:44-87 | A fault-free two-pass repair gives every unit the status its active leases imply, with all other columns unchanged. |
| Repair.RepairPostState | src/pages/Reports.tsx:48-77 | After a repair a unit is LEASED iff some active lease refers to it, and AVAILABLE otherwise, whatever its prior status (HOLD and INACTIVE included); only the status column changes and the table keeps its length. |
| Repair.RepairTargetsPartition | src/pages/Reports.tsx:53-70 | Every unit is in exactly one of the LEASED target set and the AVAILABLE target set, and every AVAILABLE target is an existing unit. |
| Repair.RepairDependsOnlyOnActiveIds | src/pages/Reports.tsx:53-77 | Two lease tables with the same set of units under active lease give the same repaired unit table. |
| Repair.RepairIdempotent | src/pages/Reports.tsx:53-77 | Repairing a repaired table changes nothing. |
| Repair.NoMismatchAfterRepair | src/components/leases/ViewLeaseDialog.tsx:61 | After a repair, no active lease refers to a unit that the lease dialog would flag as a mismatch. |
| Repair.WidgetAgreesWithTwoPass | src/components/dashboard/DataQualityWidget.tsx:42-61 | With successful reads and at least one active lease, the widget's repair leaves the same unit table as the page's repair, whatever the updates do. |
| Repair.LeaseReadFailureCreatesMismatch | src/pages/Reports.tsx:48-53 | As written: a failed lease read makes a correctly LEASED unit of an active lease AVAILABLE, creating a mismatch. |
| Repair.GuardedRepair | src/pages/Reports.tsx:48-77 | Corrected definition: the repair stops when the lease read fails. Proved about in Repair.GuardedRepairCreatesNoMismatch. |
| Repair.GuardedRepairCreatesNoMismatch | src/pages/Reports.tsx:48-77 | Corrected: a repair that stops on a failed lease read creates no lease/unit mismatch, whichever calls fail, keeps the table's length, and equals the two-pass repair when nothing fails. |
| Reports.ReportsPage.HasIssues | src/pages/Reports.tsx:93 | Definition: the page has issues when its mismatch list is non-empty. FetchDataIntegrity states the list it depends on. |
| Reports.ReportsPage.FetchDataIntegrity | src/pages/Reports.tsx:27-42 | A successful read replaces the list with the rows read (none gives an empty list); a failed read keeps it; loading ends. |
| Reports.ReportsPage.FixAllIssues | src/pages/Reports.tsx:44-87 | The unit table becomes the two-pass repair of the old tables; leases are untouched; success is reported whatever the update calls answer; fixing ends and the list is re-read. |
| IntegrityCheck.AutoFixRequested | supabase/functions/data-integrity-check/index.ts:35 | Definition: the header is present and exactly "true". Used by IntegrityCheck.Respond and IntegrityCheck.AutoFixedWithoutFix. |
| IntegrityCheck.FixRuns | supabase/functions/data-integrity-check/index.ts:27-37 | Definition: the view read succeeded, a fix was requested and at least one mismatch row was read. IntegrityCheck.Handle repairs the units exactly when it holds. |
| IntegrityCheck.Respond | supabase/functions/data-integrity-check/index.ts:76-100 | A failed view read answers success=false with the error; otherwise issuesFound is the number of rows read (0 for none), mismatches are the rows, and autoFixed echoes the header. |
| IntegrityCheck.AutoFixedWithoutFix | supabase/functions/data-integrity-check/index.ts:35-80 | With no mismatches and the header set, autoFixed is true although no repair ran. |
| IntegrityCheck.Handle | supabase/functions/data-integrity-check/index.ts:23-101 | The answer is `Respond` of the view reply; the unit table is the two-pass repair iff the fix runs, and is unchanged otherwise. |
| DataQualityWidget.Widget.HasIssues | src/components/dashboard/DataQualityWidget.tsx:90 | Definition: the card has issues when its mismatch list is non-empty. FetchMismatches states the list it depends on. |
| DataQualityWidget.Widget.FetchMismatches | src/components/dashboard/DataQualityWidget.tsx:23-36 | A successful read replaces the list; a failed read keeps it; loading ends. |
| DataQualityWidget.Widget.FixDataIntegrity | src/components/dashboard/DataQualityWidget.tsx:38-71 | The unit table becomes the widget repair: LEASED for the active ids when there are any, then AVAILABLE for every other unit, issued unconditionally. |
| ViewLeaseDialog.StatusMismatch | src/components/leases/ViewLeaseDialog.tsx:61 | Definition: the lease is active and its unit is not LEASED. Proved about in Repair.NoMismatchAfterRepair and TerminateLeaseDialog.TerminationEffect. |
| ViewLeaseDialog.LeaseStatusColor | src/components/leases/ViewLeaseDialog.tsx:73-86 | Green iff active, yellow iff draft, red iff terminated; ended, a missing status and every unknown status are gray. |
| ViewLeaseDialog.PaymentStatusColor | src/components/leases/ViewLeaseDialog.tsx:88-99 | Green iff paid, yellow iff pending, red iff failed; refunded and every unknown status are gray. |
| ViewLeaseDialog.Dialog.CheckUnitStatus | src/components/leases/ViewLeaseDialog.tsx:49-69 | Only when the dialog is open, a lease is given and the lookup returns a row are unitStatus and the flag set; otherwise both keep their values. |
| TerminateLeaseDialog.Given | src/components/leases/TerminateLeaseDialog.tsx:33 | Definition: an id is present and non-empty. TerminateLeaseDialog.Dialog.HandleTerminate writes nothing unless both ids are given. |
| TerminateLeaseDialog.Dialog.HandleTerminate | src/components/leases/TerminateLeaseDialog.tsx:32-69 | A missing id writes nothing. Otherwise the lease becomes terminated unless its update fails. The unit becomes AVAILABLE only if both updates succeed, so a failing unit update leaves the lease terminated and the unit as it was. The dialog closes only on success. |
| TerminateLeaseDialog.TerminationEffect | src/components/leases/TerminateLeaseDialog.tsx:38-51 | Only the named lease and the named unit change; the lease is terminated and no longer a mismatch, and the unit is AVAILABLE. |
| LeasesPage.DepositArg | src/pages/Leases.tsx:102 | The deposit passed is the draft's deposit, and it is 0 exactly when the deposit is null or 0. |
| LeasesPage.ConfirmCall | src/pages/Leases.tsx:97-103 | Definition: the confirm call with the draft's unit, tenant, dates and deposit argument. Used by LeasesPage.HandleActivateLease and LeasesPage.ConfirmCalls. |
| LeasesPage.OfferedActions | src/pages/Leases.tsx:282-299 | Definition: "Activate" for a draft, "Terminate" for an active lease. Proved about in LeasesPage.OfferedActionsExclusive. |
| LeasesPage.OfferedActionsExclusive | src/pages/Leases.tsx:282-299 | No lease is offered both actions; ended, terminated and status-less leases are offered neither. |
| LeasesPage.HandleActivateLease | src/pages/Leases.tsx:95-116 | One confirm call is made. The draft is deleted only if the confirm returned no error and the delete succeeds. Success is reported iff the confirm returned no error, whatever the delete did. |
| LeasesPage.LeasesToCreate | src/pages/Leases.tsx:137 | The number created is the minimum of the count asked for and the unit and tenant counts fetched. |
| LeasesPage.Pairings | src/pages/Leases.tsx:140-142 | The i-th generated lease pairs the i-th unit with the i-th tenant. |
| LeasesPage.Picked | src/pages/Leases.tsx:155 | The drafts chosen for activation are drawn from the inserted drafts, never more of them. |
| LeasesPage.PickedAppend | src/pages/Leases.tsx:155 | Filtering two lists in turn is filtering each, the second with its positions shifted: chosen drafts keep their order. |
| LeasesPage.PickedSingle | src/pages/Leases.tsx:155 | A draft is chosen iff the random choice for its position says so. |
| LeasesPage.ConfirmCalls | src/pages/Leases.tsx:157-165 | One confirm call per chosen draft, in order, each with that draft's arguments. |
| LeasesPage.CountActivated | src/pages/Leases.tsx:153-171 | The activated count never exceeds the number of confirm calls. |
| LeasesPage.CountActivatedCounts | src/pages/Leases.tsx:153-171 | The activated count is exactly the number of confirm calls that returned no error. |
| LeasesPage.AfterActivations | src/pages/Leases.tsx:157-171 | Definition: the lease table after the first k confirmations, a draft deleted only after its confirm returned no error and its delete succeeded. LeasesPage.GenerateRandomLeases is proved against it. |
| LeasesPage.GenerateRandomLeases | src/pages/Leases.tsx:118-184 | Without units or tenants nothing is written. A failed insert creates and confirms nothing. Otherwise the drafts are inserted and one confirm call is made per chosen draft, in order. A draft is deleted only after its confirm succeeds. The report counts activated ≤ created and drafts = created − activated. |
| AddLeaseDialog.FormValid | src/components/leases/AddLeaseDialog.tsx:34-43 | A form is valid iff it has a unit, a tenant, both dates and an end date after the start date; an end date on or before the start date is rejected. |
| AddLeaseDialog.DepositAmount | src/components/leases/AddLeaseDialog.tsx:182 | Definition: a non-empty deposit field gives its number, an empty one the unit's rent. Proved about in AddLeaseDialog.UntouchedDepositIsZero. |
| AddLeaseDialog.UntouchedDepositIsZero | src/components/leases/AddLeaseDialog.tsx:182 | The default field "0" is non-empty, so an untouched form submits deposit 0, not the rent. |
| AddLeaseDialog.PaymentsCreated | src/components/leases/AddLeaseDialog.tsx:197 | The count is the result's payments_created when the result is an object with that key, and 0 otherwise. |
| AddLeaseDialog.DraftRow | src/components/leases/AddLeaseDialog.tsx:219-228 | The inserted draft has status draft, the form's unit, tenant and dates, the unit's rent as monthly rent, and the chosen deposit. |
| AddLeaseDialog.UnitIdOf | src/components/leases/AddLeaseDialog.tsx:179 | Definition: the key the selected unit is looked up by. AddLeaseDialog.Dialog.OnSubmit looks the form's unit up with it, and Schema.Lookup states what the lookup finds. |
| AddLeaseDialog.Dialog.FetchUnits | src/components/leases/AddLeaseDialog.tsx:77-104 | When signed in, the offered units are exactly the AVAILABLE units (none on a failed read); when not signed in the list is unchanged. |
| AddLeaseDialog.Dialog.OnSubmit | src/components/leases/AddLeaseDialog.tsx:178-251 | An unknown unit writes and calls nothing. Confirm makes one confirm call reporting payments_created. Draft inserts one draft row. Each path clears only its own busy flag, and the dialog closes only on success. |
| PaymentsPage.IsOverdue | src/pages/Payments.tsx:70 | Definition: pending, with the due date's midnight UTC before now. Proved about in PaymentsPage.OverdueByDay. |
| PaymentsPage.OverdueByDay | src/pages/Payments.tsx:70 | A pending payment is overdue after its due day and not before it. On the due day itself it is overdue from just after 00:00 UTC on. |
| PaymentsPage.StatusColor | src/pages/Payments.tsx:74-80 | Definition: the colour table of the four statuses, "" for none. Proved about in PaymentsPage.StatusColorsDistinct. |
| PaymentsPage.StatusColorsDistinct | src/pages/Payments.tsx:74-80 | Distinct statuses have distinct colours, and only a missing status has the empty colour. |
| PaymentsPage.StatusBadge | src/pages/Payments.tsx:69-81 | An overdue payment shows "Overdue" in the destructive colour; any other shows its status name in its status colour. A pending payment due today shows "Overdue" after midnight, and one due later shows "pending". Paid, failed and refunded payments never show "Overdue". |
| PaymentsPage.PostOffered | src/pages/Payments.tsx:146 | Definition: the payment is pending. Proved about in PaymentsPage.PostOfferedUnpaid. |
| PaymentsPage.PostOfferedUnpaid | src/pages/Payments.tsx:69-146 | An offered payment is not paid and shows "pending" or "Overdue"; every overdue payment is offered. |
| PaymentsPage.LateFeeCellAsWritten | src/pages/Payments.tsx:133 | As written: the suffix appears iff the fee is present and positive, and a fee of exactly 0 renders a literal "0". |
| PaymentsPage.LateFeeCellIntended | src/pages/Payments.tsx:133 | Corrected: the suffix appears iff the fee is present and positive; nothing else is ever rendered. |
| PaymentsPage.ZeroLateFeeShowsZero | src/pages/Payments.tsx:133 | A late fee of 0 renders the text "0". |
| PaymentsPage.LateFeeCellsAgree | src/pages/Payments.tsx:133 | The written and the corrected cell differ exactly for a late fee of 0. |
| PostPaymentDialog.FormValid | src/components/payments/PostPaymentDialog.tsx:33-37 | A valid form has a non-empty amount and a method among cash, card, online, check. |
| PostPaymentDialog.NumberOf | src/components/payments/PostPaymentDialog.tsx:84 | `Number` of a JSON number is that number; of null, of the empty string and of `[]` it is 0; of a string of digits it is their value; a one-element array reads as its element's string form; a string with another character, an array of two or more elements or an object gives NaN. |
| PostPaymentDialog.ElementNumber | src/components/payments/PostPaymentDialog.tsx:84 | The only element of an array reads through its string form: null as 0, a boolean as NaN, anything else as `Number` reads it. |
| PostPaymentDialog.SingletonArrayFee | src/components/payments/PostPaymentDialog.tsx:84 | `Number([5])` and `Number(["5"])` are 5, and `Number([1, 2])` is NaN. |
| PostPaymentDialog.LateFee | src/components/payments/PostPaymentDialog.tsx:84 | The fee is `Number(result.late_fee)` when the result is an object with that key, and 0 otherwise. |
| PostPaymentDialog.MentionsLateFee | src/components/payments/PostPaymentDialog.tsx:88-90 | Definition: the fee is a number above 0. Proved about in PostPaymentDialog.NoFeeNoMention and used by PostPaymentDialog.Dialog.OnSubmit. |
| PostPaymentDialog.NoFeeNoMention | src/components/payments/PostPaymentDialog.tsx:84-90 | A result without late_fee never gives the late-fee message. |
| PostPaymentDialog.Dialog.OnSubmit | src/components/payments/PostPaymentDialog.tsx:71-105 | With no payment nothing is called. Otherwise one post call is made with the payment, amount and method. The dialog closes only on success, reporting the fee and the message choice. |
| Dashboard.Occupied | src/pages/Dashboard.tsx:39 | Definition: the number of LEASED units, by Dashboard.Count; Count, CountAppend and CountSingle give its value. |
| Dashboard.Count | src/pages/Dashboard.tsx:39-43 | `filter(...).length`: at most the list's length, and 0 iff no element is kept. |
| Dashboard.CountAppend | src/pages/Dashboard.tsx:39-43 | Counting over two lists together adds their counts. |
| Dashboard.CountSingle | src/pages/Dashboard.tsx:39-43 | One element counts 1 iff it is kept, and 0 otherwise. |
| Dashboard.IsLeased | src/pages/Dashboard.tsx:39 | Definition: the unit's status is LEASED; counted by Dashboard.Occupied. |
| Dashboard.IsPending | src/pages/Dashboard.tsx:40 | Definition: the payment's status is pending; counted by Dashboard.PendingCount. |
| Dashboard.PendingCount | src/pages/Dashboard.tsx:40 | Definition: the number of pending payments, by Dashboard.Count; Count, CountAppend and CountSingle give its value. |
| Dashboard.OverdueCount | src/pages/Dashboard.tsx:41-43 | Definition: the number of payments that are overdue at now, by the rule of PaymentsPage.IsOverdue (due-date midnight UTC compared with now in ms). Dashboard.OverdueAtMostPending bounds it. |
| Dashboard.OverdueAtMostPending | src/pages/Dashboard.tsx:40-43 | The overdue count never exceeds the pending count. |
| Dashboard.PaidInMonth | src/pages/Dashboard.tsx:45-47 | Definition: a payment is paid and the local month of its due date equals the month of now. Proved about in Dashboard.PaidThisMonthSingle. |
| Dashboard.PaidThisMonth | src/pages/Dashboard.tsx:45-47 | Definition: the sum of the amounts of payments paid in the current month. Dashboard.PaidThisMonthAppend and PaidThisMonthSingle characterise it. |
| Dashboard.PaidThisMonthAppend | src/pages/Dashboard.tsx:45-47 | The month's revenue of two payment lists together is the sum of their revenues. |
| Dashboard.PaidThisMonthSingle | src/pages/Dashboard.tsx:45-47 | One payment contributes its amount iff it is paid and the month of its due date, taken at midnight UTC in ms, equals the month of now (the year is ignored), and 0 otherwise. |
| Dashboard.PaidThisMonthNonNegative | src/pages/Dashboard.tsx:45-47 | With non-negative amounts the month's revenue is non-negative. |
| Dashboard.Stats | src/pages/Dashboard.tsx:30-59 | Occupied units are the LEASED count. The pending count, the overdue count and the revenue are PendingCount, OverdueCount and PaidThisMonth of the payments read. Overdue ≤ pending. Every count falls back to 0 when its query returned no data or count. |
| Dashboard.AfterFetch | src/pages/Dashboard.tsx:28-65 | On an exception the stats keep their prior value; otherwise they are the derived stats; loading ends either way. |
| OperationsConsole.Prepended | src/components/OperationsConsole.tsx:51 | The new row is first, the list is capped at 100, and the earlier rows follow in their order minus any beyond the cap. |
| OperationsConsole.Toggled | src/components/OperationsConsole.tsx:78-88 | Toggling flips membership of the id and affects no other id. |
| OperationsConsole.ToggleTwice | src/components/OperationsConsole.tsx:78-88 | Toggling an id twice restores the expanded set. |
| OperationsConsole.NextFilter | src/components/OperationsConsole.tsx:138 | The filter button always changes the filter. |
| OperationsConsole.FilterCycle | src/components/OperationsConsole.tsx:138 | The filter cycles all → writes → errors → all, with period three. |
| OperationsConsole.Passes | src/components/OperationsConsole.tsx:121-126 | Definition: "all" passes every log, "writes" the INSERT, UPDATE and DELETE logs, "errors" the failed ones. OperationsConsole.FilteredLogs is proved against it. |
| OperationsConsole.FilteredLogs | src/components/OperationsConsole.tsx:121-126 | A log is shown iff it passes the filter. "All" shows every log unchanged. The result is an order-preserving subsequence. |
| OperationsConsole.OperationColor | src/components/OperationsConsole.tsx:102-119 | An error status overrides the operation colour with the destructive colour; an unknown operation gets the secondary colour. |
| OperationsConsole.Console.OnInsert | src/components/OperationsConsole.tsx:50-52 | The realtime insert handler prepends the row and caps the list. |
| OperationsConsole.Console.FetchLogs | src/components/OperationsConsole.tsx:64-76 | A successful read with data replaces the list; an error or no data keeps it. |
| OperationsConsole.Console.ToggleExpanded | src/components/OperationsConsole.tsx:78-88 | The expanded set becomes the toggled set. |
| OperationsConsole.Console.ClearLogs | src/components/OperationsConsole.tsx:97-98 | Clearing empties the list. |
| OperationsConsole.Console.CycleFilter | src/components/OperationsConsole.tsx:138 | The filter moves to the next one in the cycle. |
| AddMaintenanceDialog.FormValid | src/components/maintenance/AddMaintenanceDialog.tsx:36-42 | A valid request has a unit, a listed category, a description of at least 10 characters and a priority within 1..5. |
| AddMaintenanceDialog.SliderAndDefaults | src/components/maintenance/AddMaintenanceDialog.tsx:55-64 | The slider offers exactly the priorities 1..5. The defaults are category general and priority 3. The default form is not valid. |
| AddMaintenanceDialog.NewRequest | src/components/maintenance/AddMaintenanceDialog.tsx:87-95 | The inserted request has status open and the form's unit, category, description and priority. Its estimated cost is null iff the field is blank, and otherwise the parsed number. |
| AddMaintenanceDialog.OnSubmit | src/components/maintenance/AddMaintenanceDialog.tsx:84-117 | The request table gains exactly that row iff the insert succeeds, and is unchanged otherwise. |
| UpdateStatusDialog.PatchFor | src/components/maintenance/UpdateStatusDialog.tsx:69-78 | The status is always set. completed_at is set iff the status is resolved. actual_cost is set iff the status is resolved and a cost was entered. |
| UpdateStatusDialog.OtherStatusesKeepCompletion | src/components/maintenance/UpdateStatusDialog.tsx:69-78 | For a status other than resolved, completed_at and actual_cost keep their stored values. |
| UpdateStatusDialog.OnSubmit | src/components/maintenance/UpdateStatusDialog.tsx:64-104 | A missing request id writes nothing. Otherwise exactly the row with that id is patched, unless the update fails. |
| MaintenancePage.PriorityLabel | src/pages/Maintenance.tsx:76-79 | The full table, each entry an iff: 1 Critical, 2 High, 3 Medium, 4 Low, 5 Very Low, and the empty label exactly outside 1..5. |
| MaintenancePage.PriorityColor | src/pages/Maintenance.tsx:76-79 | The full table, each entry an iff: 1 destructive, 2 warning, 3 primary, 4 and 5 muted, and no colour exactly outside 1..5. |
| MaintenancePage.StatusColor | src/pages/Maintenance.tsx:64-73 | Every listed status has a colour class; an unknown status has the empty class. |
| MaintenancePage.StatusLabel | src/pages/Maintenance.tsx:73 | The label has the status's length, and a status without an underscore is its own label. |
| MaintenancePage.StatusLabelFirstUnderscore | src/pages/Maintenance.tsx:73 | The label replaces the first underscore with a space and keeps the rest, later underscores included. |
| MaintenancePage.InProgressLabel | src/pages/Maintenance.tsx:73 | in_progress is labelled "in progress". |
| MaintenanceWidget.PriorityIcon | src/components/dashboard/MaintenanceWidget.tsx:67-71 | Definition: flame from 4 on, bolt at 3, droplet below. Proved about in MaintenanceWidget.IconMatchesLabel. |
| MaintenanceWidget.PriorityLabel | src/components/dashboard/MaintenanceWidget.tsx:73-77 | Definition: "Urgent" from 4 on, "High" at 3, "Normal" below. Proved about in MaintenanceWidget.IconMatchesLabel and PriorityScalesDisagree. |
| MaintenanceWidget.IconMatchesLabel | src/components/dashboard/MaintenanceWidget.tsx:67-77 | Icon and label use the same thresholds. |
| MaintenanceWidget.PriorityScalesDisagree | src/components/dashboard/MaintenanceWidget.tsx:73-77 | The card calls priority 5 "Urgent" where the maintenance page calls it "Very Low", and 1 "Normal" where the page calls it "Critical". |
| MaintenanceWidget.HoursElapsed | src/components/dashboard/MaintenanceWidget.tsx:82 | The whole hours elapsed are the time between the timestamps, rounded down. |
| MaintenanceWidget.TimeAgo | src/components/dashboard/MaintenanceWidget.tsx:79-88 | Under one hour is "Just now". Under 24 hours is "{h}h ago". Beyond that it is "{floor(h/24)}d ago". |
| MaintenanceWidget.UnderAnHourIsJustNow | src/components/dashboard/MaintenanceWidget.tsx:82-84 | Anything under an hour old, future timestamps included, is "Just now". |
| MaintenanceWidget.HoursLabelReadsBack | src/components/dashboard/MaintenanceWidget.tsx:82-85 | The digits of an "h ago" label read back as the whole hours elapsed. |
| MaintenanceWidget.DaysOfHours | src/components/dashboard/MaintenanceWidget.tsx:82-86 | Whole days counted from whole hours equal the whole days elapsed. |
| MaintenanceWidget.DaysLabelReadsBack | src/components/dashboard/MaintenanceWidget.tsx:82-87 | The digits of a "d ago" label read back as the whole days elapsed. |
| MaintenanceWidget.Format | src/components/dashboard/MaintenanceWidget.tsx:49-56 | A row keeps its id, priority, status and creation time; a missing or empty unit name becomes "N/A" and a missing or empty address "Unknown". |
| MaintenanceWidget.IsActive | src/components/dashboard/MaintenanceWidget.tsx:44 | Definition: the request is open or in_progress. MaintenanceWidget.ActiveRows and Listed are proved against it. |
| MaintenanceWidget.ActiveRows | src/components/dashboard/MaintenanceWidget.tsx:44 | A row is kept iff it is open or in_progress. |
| MaintenanceWidget.Listed | src/components/dashboard/MaintenanceWidget.tsx:44-57 | The card lists the first min(5, n) of the n open or in_progress rows, in order, each formatted; no data lists none. |
| MaintenanceWidget.FewActiveRowsAllListed | src/components/dashboard/MaintenanceWidget.tsx:44-47 | With at most five active rows, every one of them is listed. |
| Initials.Initials | src/components/dashboard/LeaseExpirationsWidget.tsx:79-86 | The initials have at most 2 characters, none of them a lower-case letter. |
| Initials.InitialsOfTwoWords | src/components/tenants/TenantCard.tsx:23-30 | Two words give the upper-cased first letter of each, in order. |
| Initials.InitialsOfThreeWords | src/components/dashboard/LeaseExpirationsWidget.tsx:79-86 | Three words give only the first two initials. |
| Initials.InitialsSkipEmptyWords | src/components/dashboard/LeaseExpirationsWidget.tsx:80-83 | Two non-empty words without spaces, separated by two spaces, give exactly the two upper-cased initials: the empty word between the spaces adds none. |
| Schema.DayOf | src/components/dashboard/LeaseExpirationsWidget.tsx:48-49 | The UTC date of a timestamp is its day number, rounded down. |
| LeaseExpirationsWidget.DaysUntil | src/components/dashboard/LeaseExpirationsWidget.tsx:71-77 | The days left are the milliseconds left divided by a day, rounded up. |
| LeaseExpirationsWidget.DaysUntilCountsDays | src/components/dashboard/LeaseExpirationsWidget.tsx:71-77 | The days left equal the end day minus today's UTC day. |
| LeaseExpirationsWidget.Destructive | src/components/dashboard/LeaseExpirationsWidget.tsx:141 | Definition: at most 30 days are left. Proved about in LeaseExpirationsWidget.DestructiveByEndDay. |
| LeaseExpirationsWidget.DestructiveByEndDay | src/components/dashboard/LeaseExpirationsWidget.tsx:71-77 | The badge of a lease is destructive iff it ends at most 30 calendar days after today (UTC). |
| LeaseExpirationsWidget.Format | src/components/dashboard/LeaseExpirationsWidget.tsx:54-61 | Definition: the row mapping, with "N/A" for a missing unit name, "Unknown" for a missing tenant name and no avatar for an empty one. Proved about in LeaseExpirationsWidget.UnknownTenantFallback and Listed. |
| LeaseExpirationsWidget.WindowIsNinetyDays | src/components/dashboard/LeaseExpirationsWidget.tsx:29-30 | The upper bound of the window is exactly ninety calendar days after today. |
| LeaseExpirationsWidget.InWindow | src/components/dashboard/LeaseExpirationsWidget.tsx:29-50 | Definition: the query filter, an active lease ending between today and ninety days on, both included. LeaseExpirationsWidget.InWindowRows and Listed are proved against it. |
| LeaseExpirationsWidget.InWindowRows | src/components/dashboard/LeaseExpirationsWidget.tsx:48-52 | A row is kept iff its lease is active and ends between today and today + 90 days. |
| LeaseExpirationsWidget.Listed | src/components/dashboard/LeaseExpirationsWidget.tsx:32-61 | The card lists the first min(5, n) of the n active leases ending between today and today + 90 days, in order, each formatted; no data lists none. |
| LeaseExpirationsWidget.FewInWindowRowsAllListed | src/components/dashboard/LeaseExpirationsWidget.tsx:48-52 | With at most five leases in the window, every one of them is listed. |
| LeaseExpirationsWidget.ListedDaysInRange | src/components/dashboard/LeaseExpirationsWidget.tsx:48-77 | Every listed lease is active and has between 0 and 90 days left. |
| LeaseExpirationsWidget.AvatarFallback | src/components/dashboard/LeaseExpirationsWidget.tsx:133 | The fallback shows at most two initials of the tenant's name. |
| LeaseExpirationsWidget.UnknownTenantFallback | src/components/dashboard/LeaseExpirationsWidget.tsx:58 | A lease without a tenant name shows "Unknown" with the fallback "U". |
| TenantCard.IncomeBadgeAsWritten | src/components/tenants/TenantCard.tsx:75-81 | As written: the badge appears iff the income is present and non-zero, and an income of exactly 0 renders a literal "0". |
| TenantCard.IncomeBadgeIntended | src/components/tenants/TenantCard.tsx:75-81 | Corrected: the badge appears iff the income is present and non-zero; nothing else is ever rendered. |
| TenantCard.ZeroIncomeShowsZero | src/components/tenants/TenantCard.tsx:75 | An income of 0 renders the text "0". |
| TenantCard.IncomeBadgesAgree | src/components/tenants/TenantCard.tsx:75-81 | The written and the corrected badge differ exactly for an income of 0. |
| TenantCard.Show | src/components/tenants/TenantCard.tsx:22-87 | There is no card iff the profile is null. The name and initials come from the profile. The occupation and phone lines appear iff those fields are non-empty. The income badge is the one as written: an element iff the income is non-zero, and a literal "0" iff it is 0. |
| GlobalSearch.Mapped | src/components/GlobalSearch.tsx:65-72 | Each row maps, in order, to a result with type = result_type, id = result_id and copied title, subtitle and route. |
| GlobalSearch.ToResult | src/components/GlobalSearch.tsx:67-72 | Definition: the field copy from a row to a result. Proved about in GlobalSearch.Mapped and SortedResultsAreTheRows. |
| GlobalSearch.Relevance | src/components/GlobalSearch.tsx:76-78 | A result's sort key is the relevance of some row with its id, or 0 when there is none; GlobalSearch.RelevanceOfFirstRow makes it the first such row. |
| GlobalSearch.RelevanceOfFirstRow | src/components/GlobalSearch.tsx:76-78 | The sort key is the relevance of the first row with the id, the row `find` returns. |
| GlobalSearch.RelevanceOfOwnRow | src/components/GlobalSearch.tsx:76-78 | With distinct ids each result is ranked by its own row's relevance. |
| GlobalSearch.SwapDown | src/components/GlobalSearch.tsx:75-79 | Two neighbours are exchanged and nothing else moves. |
| GlobalSearch.InsertDescending | src/components/GlobalSearch.tsx:75-79 | The first i+1 elements end in non-increasing key order, a permutation of what the array held. |
| GlobalSearch.SortDescending | src/components/GlobalSearch.tsx:75-79 | The array is sorted in place by non-increasing key and is a permutation of what it held. |
| GlobalSearch.Palette.KeyDown | src/components/GlobalSearch.tsx:29-39 | "k" with Cmd or Ctrl toggles the palette; any other key leaves it as it is. |
| GlobalSearch.Palette.PerformSearch | src/components/GlobalSearch.tsx:41-88 | A query under 2 characters clears the results and calls nothing. Otherwise one search call is made with limit 20. An error leaves no results. Success gives a permutation of the mapped rows in non-increasing relevance, where no data counts as no rows. |
| GlobalSearch.SortedResultsAreTheRows | src/components/GlobalSearch.tsx:66-81 | A permutation of the mapped rows holds each row's result and nothing else, one per row. |
| UnitOne.Fields | src/components/dbms-lab/UnitOne.tsx:63 | An entry gives five cells, and a falsy column default is the empty cell. |
| UnitOne.Cell | src/components/dbms-lab/UnitOne.tsx:63 | Definition: a null column is the empty cell. Proved about in UnitOne.Fields and LineRoundTrip. |
| UnitOne.Lines | src/components/dbms-lab/UnitOne.tsx:63 | One line per entry, in order. |
| UnitOne.Line | src/components/dbms-lab/UnitOne.tsx:63 | Definition: an entry's five cells joined by commas. Proved about in UnitOne.LineRoundTrip and CommaInCellBreaksLine. |
| UnitOne.Csv | src/components/dbms-lab/UnitOne.tsx:61-64 | Definition: the header and the entry lines joined by newlines. Proved about in UnitOne.CsvStartsWithHeader and CsvRoundTrip. |
| UnitOne.HeaderLineIsHeaderFields | src/components/dbms-lab/UnitOne.tsx:62 | The header line is the five column names joined by commas, with no newline inside. |
| UnitOne.JoinKeepsOut | src/components/dbms-lab/UnitOne.tsx:63-64 | Joining pieces without a character gives a text without it, when the separator differs. |
| UnitOne.CsvStartsWithHeader | src/components/dbms-lab/UnitOne.tsx:61-64 | Whatever the entries hold, the first line is exactly `Table,Column,Type,Nullable,Default`. |
| UnitOne.LineRoundTrip | src/components/dbms-lab/UnitOne.tsx:63-64 | A line whose cells hold no comma or newline splits on commas back into its five cells. |
| UnitOne.CsvRoundTrip | src/components/dbms-lab/UnitOne.tsx:61-64 | With such cells the text splits into the header and one line per entry, in order, with no trailing newline, and each line into the entry's cells. |
| UnitOne.CommaInCellBreaksLine | src/components/dbms-lab/UnitOne.tsx:63-64 | No quoting is applied: a comma inside a cell makes a line split into six pieces. |
| UnitOne.FetchInstanceStats | src/components/dbms-lab/UnitOne.tsx:42-58 | The count table has exactly the six domain tables as keys, each with the store's count or 0 when it returned none. |
| Text.SplitJoin | src/components/dbms-lab/UnitOne.tsx:64 | Splitting joined pieces that hold no separator gives the pieces back. |
| Text.Join | src/components/dbms-lab/UnitOne.tsx:64 | Definition: `join(sep)`. Its inverse is Text.Split, by Text.SplitJoin and Text.JoinSplit. |
| Text.JoinSplit | src/components/dashboard/LeaseExpirationsWidget.tsx:81-83 | Joining the pieces of a split gives the text back. |
| Text.Split | src/components/dashboard/LeaseExpirationsWidget.tsx:81 | A split gives at least one piece, none holding the separator. |
| Text.SplitNoSeparator | src/components/dashboard/LeaseExpirationsWidget.tsx:81 | A text without the separator splits into itself. |
| Text.SplitAfterPrefix | src/components/dbms-lab/UnitOne.tsx:64 | A prefix without the separator splits off as the first piece. |
| Text.UpperChar | src/components/dashboard/LeaseExpirationsWidget.tsx:84 | An upper-cased character is never a lower-case letter, and a character that is not one is unchanged. |
| Text.Upper | src/components/dashboard/LeaseExpirationsWidget.tsx:84 | Each character is upper-cased in place. |
| Text.FirstChars | src/components/dashboard/LeaseExpirationsWidget.tsx:82-83 | `map(n => n[0])` followed by `join("")`: at most one character per word. |
| Text.FirstCharsAppend | src/components/dashboard/LeaseExpirationsWidget.tsx:82-83 | The first characters of two word lists together are those of each, in order. |
| Text.FirstCharsSingle | src/components/dashboard/LeaseExpirationsWidget.tsx:82-83 | A word contributes its first character, and an empty word contributes nothing. |
| Text.Take | src/components/dashboard/LeaseExpirationsWidget.tsx:85 | `slice(0, n)` gives the first min(n, length) elements; `limit(n)` is the same operation on rows. |
| Text.IndexOf | src/pages/Maintenance.tsx:73 | The index is of the first occurrence, and is absent iff the character does not occur. |
| Text.NatToString | src/components/dashboard/MaintenanceWidget.tsx:85-87 | A numeral is non-empty, all digits, and has no leading zero. |
| Text.OrDefault | src/components/dashboard/MaintenanceWidget.tsx:55-56 | `v \|\| d` keeps a non-empty text and gives the default for null or empty. |
| Text.ReplaceFirst | src/pages/Maintenance.tsx:73 | Only the first occurrence of the character is replaced; a text without it is unchanged. |
| Text.NatToStringValue | src/components/dashboard/MaintenanceWidget.tsx:85-87 | The decimal numeral of a number reads back as that number. |
| Render.AndRender | src/pages/Payments.tsx:133 | `{v && cond && <el/>}` renders the element iff v is present, non-zero and cond holds, and renders the text "0" iff v is 0. |

## Left out

- Stored procedures and views: the bodies of `sp_confirm_lease`, `sp_post_payment`, `sp_place_hold`, `calculate_late_fee`, `process_overdue_payments`, `log_operation`, `global_search` and `lease_unit_status_mismatches` are not part of this model. Their calls are recorded and their answers are inputs, so the payments a confirmation creates and the late fee a posting computes are not modelled.
- The realtime channel subscription of the operations console: only its insert handler is modelled.
- Network, HTTP and CORS handling of the edge function. The function's `timestamp` field is left out of the response, as a clock value.
- The edge function's "Unknown error" message for a non-Error exception is not modelled: every failure carries the store's error text.
- Concurrency: the separate writes of a repair, a termination or an activation are sequential steps that may fail one by one. No interleaving with other clients is modelled.
- Store ordering: `order(...)` on priority, end date, creation time or name is not modelled. The rows come in the table's order, and `limit` takes the first ones of that order.
- ViewLeaseDialog.Dialog.CheckUnitStatus: the lookup filters the unit id column by the unit's name, at src/components/leases/ViewLeaseDialog.tsx:55. The model takes the looked-up row, or its absence, as an input.
- Repair.WidgetRepair: the widget's AVAILABLE update with no active leases sends the filter `not in ()`. The model reads it as matching every unit; a store that rejects it is the `availableUpdate` failure.
- Date parsing, time zones and locale rendering: dates are integers. The month of a due date in local time is the parameter `monthOf`, and `toISOString` dates are UTC day numbers.
- Floating point: money is `real`. `parseFloat`, `toFixed` and `toLocaleString` are not modelled; a parsed field is given as its number with its text.
- PostPaymentDialog.NumberOf: `Number` of a string is modelled for the empty string and plain digit strings only, and so is the string form of a one-element array. A sign, a decimal point, an exponent or surrounding blanks in a string late fee give NaN in the model, where JavaScript reads a number.
- Store.Db.InsertLeases: the store assigns lease ids and returns the inserted rows with those ids. The model returns the rows as `mk` built them, so the ids of the drafts that LeasesPage.GenerateRandomLeases later deletes are those of `mk`.
- GlobalSearch.Palette.PerformSearch: results with equal relevance are not stated to keep their row order. JavaScript's `sort` is stable, but the contract promises only the order by relevance and the permutation.
- Unicode case mapping: `toUpperCase` is modelled for ASCII letters only.
- MaintenancePage.StatusLabel: the status column is nullable, and `status.replace` on a null status throws, which breaks the table render. The model takes the status as a string, so that crash is not modelled.
- GlobalSearch.Palette.PerformSearch, Initials.Initials: strings are sequences of Unicode characters, while JavaScript's `length`, `[0]` and `slice` count UTF-16 code units. A character outside the Basic Multilingual Plane counts once in the model and twice in the source. So the model rejects a one-emoji query that the source sends to the search, and the model's initial for such a name is the whole character, not half a surrogate pair.
- Randomness: the 70 % activation filter is an arbitrary choice `pick`, and the random lease generator is the parameter `mk`.
- Authentication: the lease dialog's sign-in check is the flag `signedIn`. Row-level security is not modelled.
- Toast messages, dialog resets other than the open flag, the data-dictionary loader with its fallback query, and rendering other than the guards named above are not modelled.
- The property assistant, the property and tenant forms, the charts and the static lab pages are outside this model.

## Findings

| source | as written | input that shows it | evidently intended | confidence | as-written member | corrected member |
|---|---|---|---|---|---|---|
| src/pages/Reports.tsx:48-53 (also supabase/functions/data-integrity-check/index.ts:41-46, src/components/dashboard/DataQualityWidget.tsx:42-47) | The error of the lease read is ignored, and no data is treated as "no active leases". | Unit u1 LEASED with active lease l1, and the lease read fails: the AVAILABLE pass sets u1 to AVAILABLE while l1 stays active. | Stop the repair when the lease read fails. | not executed; high | Repair.LeaseReadFailureCreatesMismatch | Repair.GuardedRepairCreatesNoMismatch |
| src/pages/Payments.tsx:133 | `{late_fee && late_fee > 0 && …}` yields the number 0 when the fee is 0, and React renders it. | A payment with late_fee = 0 shows a stray "0" after its amount. | Show the suffix for a positive fee and nothing otherwise. | not executed; high | PaymentsPage.LateFeeCellAsWritten | PaymentsPage.LateFeeCellIntended |
| src/components/tenants/TenantCard.tsx:75 | `{annual_income && …}` yields the number 0 when the income is 0, and React renders it. | A tenant with annual_income = 0 shows a stray "0" where the badge would be. | Show the badge for a non-zero income and nothing otherwise. | not executed; high | TenantCard.IncomeBadgeAsWritten | TenantCard.IncomeBadgeIntended |

The page, edge function and widget methods model the repair as written, and the tenant card shows the income badge as written. GuardedRepair is not used by them: it equals the two-pass repair whenever nothing fails, which `Repair.GuardedRepairCreatesNoMismatch` also proves.
