# CampaignHistory: a Dafny model of the campaign table and its edit/delete/launch flows

The model covers the `CampaignHistory` component of the mailer admin dashboard. This component
holds the campaign list that was fetched from the remote campaign service. It shows the list
a page at a time. It lets an operator edit a record in a dialog, delete it after a
confirmation, or launch it, and it reports results through a notice (snackbar).

Each event handler is one method of the class `CampaignHistoryState.CampaignHistory`. Its
fields are the component's state: page, rows per page, campaign list, loading flag, page
error, the two dialog flags, the selected record, the edited copy and the notice. A remote
request is not performed. The handler takes the request's *outcome* as a parameter instead
(`FetchOutcome`, `PatchOutcome`, `DeleteOutcome`, `LaunchOutcome`). Every method states its
whole new state as an update of the old one (`State() == old(State()).(…)`), so it also says
what stays unchanged. Every method keeps the invariant that the edit dialog is open exactly
when there is an edited copy.

The expression-level parts are pure functions with lemmas:

- the JavaScript string operations `split`, `join`, `trim` and decimal rendering (`JsStrings`);
- the list updates `map` (replace by id) and `filter` (remove by id) (`ListStore`, `Seqs`);
- the attachment normalisation and the required-field check run by Save (`EditSubmit`);
- the recipient editor's `join(", ")` / `split(", ")` codec (`Campaigns`);
- the page slice (`Pagination`);
- the notice texts for failed requests (`Remote`).

`Scenarios` drives the component from a fresh mount through the edit, validation and delete
flows and states what the user observes, and what the two text editors make of concrete input.

Behaviours of the code worth knowing, which the model keeps:

- Fetch failure: a failed list fetch only sets the error, so an earlier list is kept. A
  successful fetch does not clear an earlier error either. A failed delete sets that same page
  error.
- Recipients: in JavaScript an array is always truthy, so the `to` check never fails, even for
  `[]` or `[""]` (`RecipientsNeverMissing`).
- Row count: `slice` clamps at the end of the list, so the visible row count is
  `min(rowsPerPage, max(0, total - page*rowsPerPage))` and a page past the end shows 0 rows
  (`PageRows`).
- Dialog invariant: every handler keeps `Valid()`, which says the edit dialog is open exactly
  when there is an edited copy; so the open dialog always has a record to render its fields
  from (`CampaignHistory.DialogRecord`).
- Launch failure: a refused launch is reported as "Failed to send campaign: Failed to send
  campaign: <status> <text>". The prefix appears twice because the thrown error's message
  already carries it.
- Recipient round trip: it holds only for a non-empty list whose addresses contain no `", "`.
  The empty list is shown as `""`, and `""` reads back as `[""]`.

## Model

| member | source | states |
|---|---|---|
| JsStrings.TrimStart | src/app/dashboard/campaign/components/CampaignHistory.tsx:141 | the result is a suffix of the input, everything dropped is whitespace, and it does not start with whitespace |
| JsStrings.TrimEnd | src/app/dashboard/campaign/components/CampaignHistory.tsx:141 | the result is a prefix of the input, everything dropped is whitespace, and it does not end with whitespace |
| JsStrings.Trim | src/app/dashboard/campaign/components/CampaignHistory.tsx:141 | `trim()` yields a string with no leading or trailing whitespace, no longer than its input |
| JsStrings.TrimIsInfix | src/app/dashboard/campaign/components/CampaignHistory.tsx:141 | the trim is a contiguous infix of the input, and everything before and after it is whitespace |
| JsStrings.TrimOfTrimmed | src/app/dashboard/campaign/components/CampaignHistory.tsx:141 | trimming is the identity on a string that is already trimmed |
| JsStrings.TrimKeepsOut | src/app/dashboard/campaign/components/CampaignHistory.tsx:141 | trimming never brings in a character (a comma, say) that the input lacked |
| JsStrings.Split | src/app/dashboard/campaign/components/CampaignHistory.tsx:140 | `split` with a non-empty string separator always yields at least one piece (`""` gives `[""]`) |
| JsStrings.JoinSplit | src/app/dashboard/campaign/components/CampaignHistory.tsx:289-290 | joining the pieces of `split(sep)` with `sep` gives back the original text |
| JsStrings.SplitOfFree | src/app/dashboard/campaign/components/CampaignHistory.tsx:290 | text that does not contain the separator splits into exactly itself |
| JsStrings.SplitJoin | src/app/dashboard/campaign/components/CampaignHistory.tsx:289-290 | splitting the join of a non-empty list gives the list back, when no occurrence of the separator starts inside a piece |
| JsStrings.Join | src/app/dashboard/campaign/components/CampaignHistory.tsx:289 | `join(sep)` of no pieces is the empty string and of one piece is that piece; with two or more pieces the text is at least as long as the first piece and one separator |
| JsStrings.SplitOnCharPieces | src/app/dashboard/campaign/components/CampaignHistory.tsx:140 | no piece of a split on one character contains that character |
| JsStrings.NatToString | src/app/dashboard/campaign/components/CampaignHistory.tsx:165 | a status number renders as a non-empty string of decimal digits without a leading zero |
| JsStrings.NatToStringValue | src/app/dashboard/campaign/components/CampaignHistory.tsx:165 | the rendered digits denote the status that was rendered |
| Seqs.Filter | src/app/dashboard/campaign/components/CampaignHistory.tsx:142 | `filter` keeps no more elements than it was given, and every element it keeps is accepted |
| Seqs.FilterMembers | src/app/dashboard/campaign/components/CampaignHistory.tsx:214 | an element survives `filter` exactly when it was present and is accepted |
| Seqs.FilterAppend | src/app/dashboard/campaign/components/CampaignHistory.tsx:214 | `filter` distributes over concatenation, so the survivors keep their relative order |
| Seqs.FilterKeepsAll | src/app/dashboard/campaign/components/CampaignHistory.tsx:214 | when every element is accepted, `filter` changes nothing |
| Campaigns.Truthy | src/app/dashboard/campaign/components/CampaignHistory.tsx:148 | an array is always truthy, and a string is truthy exactly when it is non-empty |
| Campaigns.RecipientsText | src/app/dashboard/campaign/components/CampaignHistory.tsx:289 | an empty recipient list shows as an empty field, and a single recipient as itself |
| Campaigns.ParseRecipients | src/app/dashboard/campaign/components/CampaignHistory.tsx:290 | reading the field back never gives an empty list: an emptied field reads as one empty recipient `[""]` |
| Campaigns.RecipientsRoundTrip | src/app/dashboard/campaign/components/CampaignHistory.tsx:289-290 | a non-empty recipient list with no `", "` inside an address survives being shown as `join(", ")` and read back with `split(", ")` |
| Campaigns.RecipientsTextStable | src/app/dashboard/campaign/components/CampaignHistory.tsx:289-290 | whatever text is typed into the recipient field is shown back unchanged after it is parsed |
| Campaigns.OneRecipientWithoutCommaSpace | src/app/dashboard/campaign/components/CampaignHistory.tsx:290 | text without `", "` (such as `"a,b"`) parses as a single recipient |
| Campaigns.WithTyped | src/app/dashboard/campaign/components/CampaignHistory.tsx:117-121 | typing into a field (the onChange handlers at lines 290 and 315) sets that field to the parsed recipient list for `to` and to the text for any other field, and leaves every other field unchanged |
| ListStore.ReplaceById | src/app/dashboard/campaign/components/CampaignHistory.tsx:171-175 | the new list has the same length and order; a position holds the edited payload exactly where the old record had the selected id, and the old record everywhere else |
| ListStore.ReplaceOne | src/app/dashboard/campaign/components/CampaignHistory.tsx:171-175 | with unique ids, the update replaces exactly the one record that has the selected id |
| ListStore.ReplaceAbsent | src/app/dashboard/campaign/components/CampaignHistory.tsx:171-175 | an edit whose record is no longer in the list (removed meanwhile) leaves the list unchanged |
| ListStore.ReplaceKeepsIds | src/app/dashboard/campaign/components/CampaignHistory.tsx:171-175 | when the payload keeps the selected id, every position keeps its id, so unique ids stay unique |
| ListStore.RemoveById | src/app/dashboard/campaign/components/CampaignHistory.tsx:214 | a record stays in the list exactly when it was there and its id is not the selected one |
| ListStore.RemoveAbsent | src/app/dashboard/campaign/components/CampaignHistory.tsx:214 | removing an id that no record has changes nothing |
| ListStore.RemoveOne | src/app/dashboard/campaign/components/CampaignHistory.tsx:214 | with unique ids, the delete removes exactly the record at the selected id's position and keeps the order of the rest |
| ListStore.RemoveKeepsUnique | src/app/dashboard/campaign/components/CampaignHistory.tsx:214 | removing records keeps ids unique |
| EditSubmit.TrimEach | src/app/dashboard/campaign/components/CampaignHistory.tsx:141 | trimming the pieces gives one result per piece |
| EditSubmit.AttachmentList | src/app/dashboard/campaign/components/CampaignHistory.tsx:139-142 | every item of the list a comma-separated text stands for is non-empty, has no leading or trailing whitespace and contains no comma |
| EditSubmit.NormalizeAttachments | src/app/dashboard/campaign/components/CampaignHistory.tsx:138-143 | string attachments become a list whose items are non-empty, have no leading or trailing whitespace and contain no comma; an array is left unchanged |
| EditSubmit.AttachmentMembers | src/app/dashboard/campaign/components/CampaignHistory.tsx:138-143 | an item is in the normalised list exactly when it is the non-empty trim of some comma-separated piece |
| EditSubmit.NormalizeJoined | src/app/dashboard/campaign/components/CampaignHistory.tsx:138-143 | clean names written as comma-separated text normalise back to the same list, including the empty list |
| EditSubmit.Normalized | src/app/dashboard/campaign/components/CampaignHistory.tsx:135-143 | the record that is sent has list attachments, and every other field is the same as in the edited copy |
| EditSubmit.FirstMissingIn | src/app/dashboard/campaign/components/CampaignHistory.tsx:146-151 | a reported message is `"<f> is required."` for a field f of the list that is falsy in the record |
| EditSubmit.ValidationError | src/app/dashboard/campaign/components/CampaignHistory.tsx:146-151 | Save can only report name, date, subject or body as missing, never `to` |
| EditSubmit.FirstMissingInIsFirstFalsy | src/app/dashboard/campaign/components/CampaignHistory.tsx:146-151 | the check passes exactly when every required field is truthy; otherwise its message is `"<f> is required."` for the first falsy field f in order |
| EditSubmit.RecipientsNeverMissing | src/app/dashboard/campaign/components/CampaignHistory.tsx:146-151 | validation passes exactly when name, date, subject and body are non-empty; "to is required." never occurs |
| EditSubmit.CheckRequired | src/app/dashboard/campaign/components/CampaignHistory.tsx:146-151 | the loop over `name, date, subject, to, body` stops with the message the first-falsy specification gives, or passes |
| Pagination.Slice | src/app/dashboard/campaign/components/CampaignHistory.tsx:370 | `slice(start, end)` clamps both ends to the list and yields the elements from `start` on, in order |
| Pagination.PageRows | src/app/dashboard/campaign/components/CampaignHistory.tsx:369-370 | a page has `min(rowsPerPage, max(0, n - page*rowsPerPage))` rows, and they are the records from `page*rowsPerPage` on, in order |
| Pagination.RowOnItsPage | src/app/dashboard/campaign/components/CampaignHistory.tsx:369-370 | record i is shown on page `i / rowsPerPage` at row `i % rowsPerPage` |
| Pagination.PagesTile | src/app/dashboard/campaign/components/CampaignHistory.tsx:369-370 | the first n pages, read in order, are exactly the first `n*rowsPerPage` records: nothing is dropped, repeated or reordered |
| Remote.RefusedPatchMessage | src/app/dashboard/campaign/components/CampaignHistory.tsx:162-166 | a refused PATCH reports the server's non-empty message, and otherwise "HTTP error! status: " followed by digits that denote the status |
| Remote.PatchFailureMessage | src/app/dashboard/campaign/components/CampaignHistory.tsx:162-196 | a thrown error shows its own message, a thrown non-error shows "Failed to update campaign. Please try again later.", and a refusal never shows an empty notice |
| Remote.LaunchMessage | src/app/dashboard/campaign/components/CampaignHistory.tsx:232-253 | the launch notice reads "Campaign sent successfully" exactly when the launch was accepted |
| Remote.LaunchFailureMessage | src/app/dashboard/campaign/components/CampaignHistory.tsx:232-253 | a failed launch is reported under "Failed to send campaign: ", followed by the thrown error's message, by "Unknown error" for a thrown non-error, or for a refusal by the same prefix again with the status and the status text, which end the notice |
| CampaignHistoryState.CampaignHistory.constructor | src/app/dashboard/campaign/components/CampaignHistory.tsx:32-51 | the state starts on page 0 with 5 rows per page, an empty list, loading, no error, both dialogs closed, nothing selected and a closed empty success notice |
| CampaignHistoryState.CampaignHistory.DialogRecord | src/app/dashboard/campaign/components/CampaignHistory.tsx:413-419 | while every handler keeps `Valid()`, the open edit dialog always has a record to render its fields from, and a closed one has none |
| CampaignHistoryState.CampaignHistory.FetchCampaigns | src/app/dashboard/campaign/components/CampaignHistory.tsx:59-82 | a fetched list replaces the local one; a failure sets the load error and keeps the list; loading ends either way; nothing else changes |
| CampaignHistoryState.CampaignHistory.ChangePage | src/app/dashboard/campaign/components/CampaignHistory.tsx:84-86 | only the page changes |
| CampaignHistoryState.CampaignHistory.ChangeRowsPerPage | src/app/dashboard/campaign/components/CampaignHistory.tsx:88-93 | the page size changes and the page is always reset to 0; nothing else changes |
| CampaignHistoryState.CampaignHistory.EditClick | src/app/dashboard/campaign/components/CampaignHistory.tsx:95-99 | the record becomes both the selected record and the edited copy, and the edit dialog opens |
| CampaignHistoryState.CampaignHistory.DeleteClick | src/app/dashboard/campaign/components/CampaignHistory.tsx:101-104 | the record is selected and the delete dialog opens; the edited copy is untouched |
| CampaignHistoryState.CampaignHistory.EditDialogClose | src/app/dashboard/campaign/components/CampaignHistory.tsx:106-110 | the edit dialog closes and both the selection and the edited copy are cleared |
| CampaignHistoryState.CampaignHistory.DeleteDialogClose | src/app/dashboard/campaign/components/CampaignHistory.tsx:112-115 | the delete dialog closes and the selection is cleared |
| CampaignHistoryState.CampaignHistory.EditChange | src/app/dashboard/campaign/components/CampaignHistory.tsx:117-121 | with an edited copy, one field of it takes the typed value; without one, nothing changes |
| CampaignHistoryState.CampaignHistory.EditSubmit | src/app/dashboard/campaign/components/CampaignHistory.tsx:123-198 | with no selection or no edited copy, only the notice changes ("No campaign selected for editing."); a missing required field shows its message and changes nothing else, whatever the request would return; a failed PATCH shows its failure message, and the list, the dialog and the edited copy stay as they were; an accepted PATCH replaces every record with the selected id by the normalised edited copy, shows the success notice, closes the dialog and clears both selection fields |
| CampaignHistoryState.CampaignHistory.DeleteConfirm | src/app/dashboard/campaign/components/CampaignHistory.tsx:200-221 | with no selection nothing changes; an accepted DELETE removes every record with the selected id, closes the dialog and clears the selection; a failure sets only the page error |
| CampaignHistoryState.CampaignHistory.SendEmail | src/app/dashboard/campaign/components/CampaignHistory.tsx:223-255 | a launch changes only the notice (success or error, with the launch message); the list and the dialogs never change |
| CampaignHistoryState.CampaignHistory.CloseSnackbar | src/app/dashboard/campaign/components/CampaignHistory.tsx:257-265 | a "clickaway" close changes nothing; any other close hides the notice and keeps its message and severity |
| Scenarios.RenameAndSave | src/app/dashboard/campaign/components/CampaignHistory.tsx:95-183 | on a list with unique ids, renaming record j and saving with an accepted PATCH changes exactly record j, reports success and closes the dialog |
| Scenarios.EmptyNameRejected | src/app/dashboard/campaign/components/CampaignHistory.tsx:146-151 | clearing the name and saving reports "name is required." whatever the server would answer; the list is unchanged and the dialog stays open |
| Scenarios.DeleteOne | src/app/dashboard/campaign/components/CampaignHistory.tsx:200-215 | on a list with unique ids, confirming the deletion of record j removes that record and no other, and closes the dialog |
| Scenarios.TwoRecipients | src/app/dashboard/campaign/components/CampaignHistory.tsx:290 | `"a@x.com, b@x.com"` typed into the recipient field gives `["a@x.com", "b@x.com"]` |
| Scenarios.TwoAttachments | src/app/dashboard/campaign/components/CampaignHistory.tsx:138-143 | `"f1.pdf, f2.pdf"` as attachments text normalises to `["f1.pdf", "f2.pdf"]` |

## Left out

- EditSubmit.TrimEach: the contract states only that there is one result per piece. That each result is the trim of its own piece follows from its definition and is used through `EditSubmit.AttachmentMembers`, which states it for the items that survive the filter.
- Requests: the `fetch` calls, their URLs, headers, the bearer token read from `localStorage`, and JSON encoding and parsing are not modelled. They are network and browser I/O. Each request is an outcome parameter of its handler.
- Timing: the `useEffect` that refetches on mount and on a change of `campaignsInfo` is not modelled, and neither is the order in which asynchronous completions arrive. Each handler is one atomic step. A handler that reads a stale `campaigns` from its closure is therefore not represented.
- Rendering: the spinner, the error text, the "No campaigns found." branch, the columns taken from `Object.keys(campaigns[0])`, cell stringification and MUI styling are not modelled. They are view code; the visible rows are modelled as `Pagination.PageRows`.
- Read-only fields: the read-only flag on the `id` and `status` fields is a property of the text field, not of the handler. `EditChange` accepts every field, as `handleEditChange` does.
- Field types: `Campaign` is given fixed field types (strings, `to` as a string array, `attachments` as a string or a string array). The `Campaign` interface in `src/app/dashboard/campaign/interfaces` is not part of this model. An edit that stores a value of the wrong kind (a string into `to`) cannot come from the dialog, so it is not modelled.
- Page size: `ChangeRowsPerPage` takes the number that `parseInt` produced from the selected option.
- Notice timing: the 6000 ms auto-hide is not modelled as a clock. It closes the notice through `CloseSnackbar` with a reason other than "clickaway".
- Logging: the `console.error` and `console.log` calls are not modelled. They have no effect on the state.
- Characters: strings are sequences of Unicode scalar values, not UTF-16 code units. `trim` removes the ECMAScript WhiteSpace and LineTerminator characters, with the space separators of current Unicode.
- Error bodies: `PatchOutcome` carries the error body's `message` as an optional string. A non-string `message` is not modelled.
- Other files: `src/App.tsx` (routes), `src/app/theme/theme.ts` (theme constants) and `src/app/dashboard/components/Notifications/Notification.tsx` (presentation) have no behaviour of this component, so they are not modelled.
