# Port-access front end: client-side rules

This project models the rules that the front end of the port-access system
(Capstone team 14) applies in the browser before and after it talks to the
backend. The front end is a set of React components. Users ask for access to a
network port. Administrators approve or deny these requests, manage per-user
ports and port policies, and read the audit log.

What the components decide on their own is modelled and proved here:

- validation and submission of a port request (`PortRequestForm`);
- the search over the pending requests and the approve/deny guard (`PendingRequests`);
- password checks and the registration payload (`Register`);
- the user search and the manage-port guard (`UserManagement`);
- selection of the global blacklist and the policy form's reset (`PortPolicyManager`);
- page count, page navigation, action badges and the details toggle of the audit log (`AuditLogViewer`);
- the status badge (`StatusBadge`);
- truncation of the recent-request list (`MyRequests`).

The decisions that matter most to the system are made by the backend behind
HTTP endpoints: policy precedence, the request lifecycle and audit recording.
The system's design describes them, but the browser code only calls them.
They are not modelled and nothing is invented in their place. Where the two
disagree, this model follows the code. An example is the missing
`getPortPolicies`, `createPolicy` and `deletePolicy` endpoints: the policy
manager calls them through `?.()`, and `src/components/services/api.js`
does not define them.

Shared modules:

- `Common`: optional values, the outcome of a backend call, and the badge variants.
- `Seqs`: an order-preserving `filter`, characterised by subsequence and multiset counts.
- `JsString`: the JavaScript string built-ins the components rely on. These are `trim` with the exact ECMAScript whitespace set, ASCII `toLowerCase`, `includes`, UTF-16 `length`, integer `toString`, and `parseInt` with sign, `0x` prefix and NaN.

How the components are modelled:

- Each component with state is a class whose fields are its `useState` variables.
- Each event handler is a method of that class.
- An awaited backend call is a parameter: `Reply` (resolved, or failed with a message).
- A method returns what it would send (`None` when nothing is sent). Where a handler or an effect fetches the list again, the method also returns a `refetch` flag. In the audit-log viewer that flag is set exactly when `filters.page` or `filters.limit` changed, because the fetch effect depends on those two.
- A derived list kept in step with its sources is a class invariant. There are two:
  - the filtered list, kept by the effect `useEffect(filter, [searchTerm, list])`;
  - `globalBlacklist`, which `fetchPolicies` sets in the same call as `policies` (two state updates made together, not an effect).

## Model

| member | source | states |
|---|---|---|
| Seqs.Filter | src/components/admin/pendingrequests.jsx:47-51 | `filter` keeps an order-preserving subsequence holding every occurrence of each element the predicate accepts and nothing else |
| Seqs.FilterAll | src/components/admin/usermanagment.jsx:47-51 | every element kept satisfies the predicate and comes from the input |
| Seqs.FilterKeeps | src/components/admin/usermanagment.jsx:47-51 | an input element is kept exactly when it satisfies the predicate |
| Seqs.PrefixIsSubsequence | src/components/user/myrequests.jsx:20 | a prefix, as `slice(0, k)` returns, is an order-preserving subsequence |
| JsString.TrimStart | src/components/user/portrequestform.jsx:23 | only whitespace is dropped from the front and the result does not start with whitespace |
| JsString.TrimStartIsSuffix | src/components/user/portrequestform.jsx:23 | what is kept is the end of the input, unchanged |
| JsString.TrimEnd | src/components/user/portrequestform.jsx:28 | the result is a prefix of the input; only whitespace is dropped and the result does not end with whitespace |
| JsString.Trim | src/components/user/portrequestform.jsx:28 | the trimmed string neither starts nor ends with whitespace |
| JsString.BlankTrimsToEmpty | src/components/user/portrequestform.jsx:28 | trimming a string made only of whitespace leaves nothing |
| JsString.BlankIffTrimEmpty | src/components/user/portrequestform.jsx:28 | `!s.trim()` holds exactly when every character of `s` is whitespace |
| JsString.LowerChar | src/components/admin/pendingrequests.jsx:46 | upper-case ASCII letters move to lower case; every other character is kept |
| JsString.Lower | src/components/admin/pendingrequests.jsx:46 | `toLowerCase` keeps the length and lower-cases each character in place |
| JsString.LowerIdempotent | src/components/common/statusbadge.jsx:6 | lower-casing twice equals lower-casing once |
| JsString.ContainsIffOccurs | src/components/admin/pendingrequests.jsx:48-50 | `includes` holds exactly when the term occurs at some position of the string |
| JsString.Utf16Length | src/components/auth/register.jsx:34 | `length` lies between the number of characters and twice that, and equals it within the Basic Multilingual Plane |
| JsString.NatToString | src/components/admin/pendingrequests.jsx:49 | the decimal string is non-empty, all digits, and starts with 0 only for 0 |
| JsString.IntToString | src/components/admin/pendingrequests.jsx:49 | the string starts with '-' exactly for negative numbers |
| JsString.DigitPrefix | src/components/user/portrequestform.jsx:23 | the longest run of digits that starts the text |
| JsString.NatToStringValue | src/components/user/portrequestform.jsx:23 | the digits of a number's decimal string have that number as their value |
| JsString.ParseIntPrefix | src/components/user/portrequestform.jsx:23 | `parseInt` reads back an integer's decimal string followed by any text that starts with no digit (and, after a lone 0, with no `x`) |
| JsString.ParseIntRoundTrip | src/components/user/portrequestform.jsx:23 | `parseInt(String(n)) == n` for every integer |
| JsString.ParseIntSkipsWhitespace | src/components/user/portrequestform.jsx:23 | leading whitespace never changes what `parseInt` reads |
| JsString.NoLeadingDigitIsNaN | src/components/user/portrequestform.jsx:23-24 | text starting with a character that is neither whitespace, sign nor digit parses to NaN |
| StatusBadge.GetVariant | src/components/common/statusbadge.jsx:5-18 | one of five variants; each colour is returned exactly for its lower-cased status word |
| StatusBadge.UnknownStatusIsLight | src/components/common/statusbadge.jsx:6-16 | `light` exactly for a missing status or one outside the four known words |
| StatusBadge.CaseInsensitive | src/components/common/statusbadge.jsx:6 | statuses equal after lower-casing get the same variant |
| StatusBadge.LowerCaseSpellingDecides | src/components/common/statusbadge.jsx:6-8 | every spelling of a status gets the badge of its lower-case spelling, so "APPROVED" is `success` |
| StatusBadge.VariantIdentifiesStatus | src/components/common/statusbadge.jsx:7-14 | a variant other than `light` determines the status up to case |
| MyRequests.Shown | src/components/user/myrequests.jsx:20 | always a prefix of the fetched list; the whole list for a falsy limit; min(limit, n) entries for a positive one |
| MyRequests.ShownAtMostLimit | src/components/user/myrequests.jsx:20 | with a positive limit, at most that many entries, in fetched order |
| MyRequests.DashboardShowsFive | src/components/user/userdashboard.jsx:172 | the dashboard shows the first five requests, or all when there are fewer |
| PortRequestForm.ValidateForm | src/components/user/portrequestform.jsx:22-33 | valid exactly when the parsed port is in 1..65535 and the service is not blank; the port error otherwise takes precedence over the service error |
| PortRequestForm.ValidDecimalPort | src/components/user/portrequestform.jsx:23-31 | the decimal string of `n` passes exactly when 1 <= n <= 65535 and the service is not blank |
| PortRequestForm.PortBounds | src/components/user/portrequestform.jsx:24 | "0" and "65536" are rejected; "1" and "65535" are accepted |
| PortRequestForm.NaNPortRejected | src/components/user/portrequestform.jsx:23-26 | a port text that parses to NaN gets the port error whatever the service |
| PortRequestForm.TrailingTextAccepted | src/components/user/portrequestform.jsx:23-24 | a port in range followed by non-digit text, such as "8080abc", is accepted |
| PortRequestForm.WithFieldOverwrites | src/components/user/portrequestform.jsx:15-20 | a second edit of the same input replaces the first |
| PortRequestForm.WithFieldCommutes | src/components/user/portrequestform.jsx:15-20 | edits of two different inputs give the same form in either order |
| PortRequestForm.PortRequestFormState.constructor | src/components/user/portrequestform.jsx:7-13 | empty form, no spinner, no error |
| PortRequestForm.PortRequestFormState.HandleChange | src/components/user/portrequestform.jsx:15-20 | one field changes; loading and error do not |
| PortRequestForm.PortRequestFormState.HandleSubmit | src/components/user/portrequestform.jsx:35-60 | an invalid form sends nothing and shows its error; a valid one sends the parsed port and the untrimmed service and reason; success resets the form and closes the dialog; failure keeps the form and shows the server message or "Failed to submit request"; the alert (a non-empty error) shows exactly when the dialog stays open |
| PendingRequests.FilterRequests | src/components/admin/pendingrequests.jsx:40-53 | a blank term keeps the list; any other term keeps, in order, exactly the requests whose lower-cased username, decimal port string or lower-cased service includes the lower-cased, untrimmed term |
| PendingRequests.FilterRequestsKeeps | src/components/admin/pendingrequests.jsx:41-51 | a fetched request is shown exactly when the term is blank or the request matches it |
| PendingRequests.MissingFieldsNeverMatch | src/components/admin/pendingrequests.jsx:48-50 | a request with all three fields missing matches no term |
| PendingRequests.SpacesAreSearchedFor | src/components/admin/pendingrequests.jsx:41-49 | the term is not trimmed: " 22" does not find port 22 |
| PendingRequests.NoSpaceNoMatch | src/components/admin/pendingrequests.jsx:48-50 | a string without spaces includes no term that has a space at any position |
| PendingRequests.PendingRequestsView.constructor | src/components/admin/pendingrequests.jsx:10-17 | empty lists, empty term, dialog closed |
| PendingRequests.PendingRequestsView.Loaded | src/components/admin/pendingrequests.jsx:23-38 | the fetched list is stored and the shown list is its filter by the current term |
| PendingRequests.PendingRequestsView.SetSearchTerm | src/components/admin/pendingrequests.jsx:23-25 | the shown list follows the new term |
| PendingRequests.PendingRequestsView.HandleAction | src/components/admin/pendingrequests.jsx:55-59 | the dialog opens on the request and its decision with an empty comment |
| PendingRequests.PendingRequestsView.SetComment | src/components/admin/pendingrequests.jsx:190 | the comment becomes what was typed |
| PendingRequests.PendingRequestsView.CloseModal | src/components/admin/pendingrequests.jsx:197 | the dialog closes |
| PendingRequests.PendingRequestsView.SubmitAction | src/components/admin/pendingrequests.jsx:61-86 | nothing without a selection; a denial with a blank comment sends nothing and keeps the dialog; otherwise the id and untrimmed comment are sent; success closes the dialog and refetches |
| Register.ValidateForm | src/components/auth/register.jsx:29-39 | valid exactly when the passwords agree and have at least 6 UTF-16 units; a mismatch is reported before a short password |
| Register.SixCharactersSuffice | src/components/auth/register.jsx:34-38 | six confirmed characters in the Basic Multilingual Plane pass |
| Register.Payload | src/components/auth/register.jsx:49 | username, email, password and role are copied unchanged |
| Register.PayloadDropsOnlyConfirmation | src/components/auth/register.jsx:49 | putting `confirmPassword` back into the payload gives the form again |
| Register.PayloadIgnoresConfirmation | src/components/auth/register.jsx:49-50 | forms that differ only in `confirmPassword` send the same payload |
| Register.WithFieldOverwrites | src/components/auth/register.jsx:22-27 | a second edit of the same input replaces the first |
| Register.WithFieldCommutes | src/components/auth/register.jsx:22-27 | edits of two different inputs give the same form in either order |
| Register.RegisterPage.constructor | src/components/auth/register.jsx:9-17 | the initial form with role "user", no error |
| Register.RegisterPage.HandleChange | src/components/auth/register.jsx:22-27 | one field changes |
| Register.RegisterPage.HandleSubmit | src/components/auth/register.jsx:41-61 | an invalid form is not sent and shows its error; a valid one sends the payload; success goes to the login page and failure shows the returned error; a refused form always shows a non-empty error |
| UserManagement.FilterUsers | src/components/admin/usermanagment.jsx:40-53 | a blank term keeps all users; any other term keeps, in order, exactly the users whose lower-cased username, email or role includes the lower-cased, untrimmed term |
| UserManagement.FilterUsersKeeps | src/components/admin/usermanagment.jsx:41-51 | a user is shown exactly when the term is blank or the user matches it |
| UserManagement.RoleSearchIgnoresCase | src/components/admin/usermanagment.jsx:46-50 | "ADMIN" finds a user whose role is "admin" |
| UserManagement.PortActionCall | src/components/admin/usermanagment.jsx:61-69 | no call without a selected user or with an empty port text; otherwise the user's id, `parseInt` of the text and the chosen action |
| UserManagement.OutOfRangePortIsSent | src/components/admin/usermanagment.jsx:65-69 | port 70000 is sent: no range check |
| UserManagement.BlankPortIsSentAsNaN | src/components/admin/usermanagment.jsx:62-67 | every non-empty port text made only of whitespace passes the guard and is sent as NaN |
| UserManagement.UserManagementView.constructor | src/components/admin/usermanagment.jsx:9-17 | empty lists, dialog closed, default port data |
| UserManagement.UserManagementView.Loaded | src/components/admin/usermanagment.jsx:23-38 | the fetched users are stored and the shown list is their filter by the current term |
| UserManagement.UserManagementView.SetSearchTerm | src/components/admin/usermanagment.jsx:23-25 | the shown list follows the new term |
| UserManagement.UserManagementView.HandleManagePorts | src/components/admin/usermanagment.jsx:55-59 | the user is selected, the dialog opens and the port data is port "" with action "whitelist" |
| UserManagement.UserManagementView.SetPortText | src/components/admin/usermanagment.jsx:190 | only the port text changes |
| UserManagement.UserManagementView.SetPortAction | src/components/admin/usermanagment.jsx:206-224 | only the action changes |
| UserManagement.UserManagementView.ClosePortModal | src/components/admin/usermanagment.jsx:247 | the dialog closes |
| UserManagement.UserManagementView.HandlePortAction | src/components/admin/usermanagment.jsx:61-77 | the call made is `PortActionCall` of the state; success closes the dialog and refetches; otherwise the dialog stays |
| PortPolicyManager.GlobalBlacklist | src/components/admin/portpolicymanager.jsx:30 | an order-preserving subsequence holding exactly the blacklist policies with a falsy `userId`, with their multiplicities |
| PortPolicyManager.GlobalBlacklistKeeps | src/components/admin/portpolicymanager.jsx:30 | a fetched policy is in the global blacklist exactly when it is a blacklist policy with no user |
| PortPolicyManager.GlobalBlacklistOnlyGlobal | src/components/admin/portpolicymanager.jsx:30 | no whitelist policy and no policy with a set user is in the global blacklist |
| PortPolicyManager.TypeVariant | src/components/admin/portpolicymanager.jsx:98 | `success` exactly for "whitelist", `danger` otherwise |
| PortPolicyManager.GlobalBlacklistIsDanger | src/components/admin/portpolicymanager.jsx:98-141 | every global blacklist policy also carries the danger badge in the list of all policies |
| PortPolicyManager.WithFieldOverwrites | src/components/admin/portpolicymanager.jsx:169-209 | a second edit of the same input replaces the first |
| PortPolicyManager.WithFieldCommutes | src/components/admin/portpolicymanager.jsx:169-209 | edits of two different inputs give the same form in either order |
| PortPolicyManager.PolicyManagerView.constructor | src/components/admin/portpolicymanager.jsx:8-18 | no policies, dialog closed, the default form: port "", type "whitelist", userId "", reason "" |
| PortPolicyManager.PolicyManagerView.FetchPolicies | src/components/admin/portpolicymanager.jsx:24-37 | the fetched list and its global blacklist are stored together; a missing endpoint gives an empty list; a failure keeps both |
| PortPolicyManager.PolicyManagerView.OpenModal | src/components/admin/portpolicymanager.jsx:75 | the dialog opens |
| PortPolicyManager.PolicyManagerView.CloseModal | src/components/admin/portpolicymanager.jsx:214 | the dialog closes |
| PortPolicyManager.PolicyManagerView.Edit | src/components/admin/portpolicymanager.jsx:169-209 | one form field changes |
| PortPolicyManager.PolicyManagerView.HandleSubmit | src/components/admin/portpolicymanager.jsx:39-49 | the form is sent unchanged, port unparsed; unless the call fails, the dialog closes, the form returns to the default and the list is refetched |
| PortPolicyManager.PolicyManagerView.HandleDelete | src/components/admin/portpolicymanager.jsx:51-61 | nothing happens unless confirmed; then the id is sent and, unless the call fails, the list is refetched |
| AuditLogViewer.TotalPages | src/components/admin/auditlogviewer.jsx:46 | `Math.ceil(total / limit)`: the pages hold all rows and one page fewer would not |
| AuditLogViewer.TotalPagesIsLeast | src/components/admin/auditlogviewer.jsx:46 | no page count below it holds all rows |
| AuditLogViewer.MorePagesThanOne | src/components/admin/auditlogviewer.jsx:296 | there is more than one page, so the pagination is rendered, exactly when the rows do not fit on one page |
| AuditLogViewer.ActionBadge | src/components/admin/auditlogviewer.jsx:75-88 | each of the nine actions gets its fixed colour and anything else gets `light` |
| AuditLogViewer.ActionBadgeIsCaseSensitive | src/components/admin/auditlogviewer.jsx:87 | the lookup is exact: the lower-case spelling of every action in the table gets `light` |
| AuditLogViewer.ToggleDetails | src/components/admin/auditlogviewer.jsx:243 | clicking the open row closes it; clicking any other row opens that one instead |
| AuditLogViewer.DetailsUnderOneRow | src/components/admin/auditlogviewer.jsx:243-249 | when log ids are distinct, at most one row shows its details; after a click on a row, a row shows details exactly when it is the clicked row and that row was not already open |
| AuditLogViewer.PageItems | src/components/admin/auditlogviewer.jsx:303-311 | items are numbered 1..totalPages and an item is active exactly when it is the current page |
| AuditLogViewer.OneActiveItem | src/components/admin/auditlogviewer.jsx:303-311 | exactly one item is active when the page is in 1..totalPages, none otherwise |
| AuditLogViewer.ApplyEdit | src/components/admin/auditlogviewer.jsx:113-172 | a filter input changes its own field and never the page or limit |
| AuditLogViewer.AuditLogView.constructor | src/components/admin/auditlogviewer.jsx:18-30 | no dates, empty text filters, page 1, limit 20, one page, no open row |
| AuditLogViewer.AuditLogView.BeginFetch | src/components/admin/auditlogviewer.jsx:41-43 | a fetch starting shows the spinner and hides the pagination |
| AuditLogViewer.AuditLogView.ReceiveLogs | src/components/admin/auditlogviewer.jsx:41-52 | loading ends; the rows and the ceiling page count are stored, and the pagination shows exactly when the total exceeds 20; on failure they are kept |
| AuditLogViewer.AuditLogView.Edit | src/components/admin/auditlogviewer.jsx:113-172 | the filters become `ApplyEdit` of them; page and limit are kept, so the fetch effect does not run |
| AuditLogViewer.AuditLogView.HandleFilter | src/components/admin/auditlogviewer.jsx:54-57 | the page becomes 1 and every other filter is kept; the fetch started at once reads the filters from before the update; the effect fetches again exactly when the page was not 1 |
| AuditLogViewer.AuditLogView.ClickPrev | src/components/admin/auditlogviewer.jsx:299-302 | disabled on page 1; otherwise one page back; only the page changes and it stays in range; the effect on the page fetches the logs again exactly when the click was not disabled |
| AuditLogViewer.AuditLogView.ClickNext | src/components/admin/auditlogviewer.jsx:312-315 | disabled on the last page; otherwise one page on; only the page changes and it stays in range; the effect on the page fetches the logs again exactly when the click was not disabled |
| AuditLogViewer.AuditLogView.ClickItem | src/components/admin/auditlogviewer.jsx:304-308 | the page becomes the item's number and nothing else changes; the effect on the page fetches the logs again exactly when that is a different page |
| AuditLogViewer.AuditLogView.ToggleRow | src/components/admin/auditlogviewer.jsx:243 | the open row becomes `ToggleDetails` of it |

## Left out

- The backend: approval and denial, policy precedence, port management and audit-log writing are remote calls whose behaviour is not in this code.
- `src/components/services/api.js` as a whole: the axios instance, the interceptors that use `localStorage`, and the 401 redirect. Each backend call is instead a value saying what was sent, plus a `Reply` parameter for how it ended.
- Login, navigation bar and the two dashboards: they only render and fetch. From the user dashboard only the `limit={5}` it passes is modelled.
- Presentation: JSX, toasts, spinners, date formatting, and the `JSON.stringify` of old and new values.
- The CSV export of the audit log: it builds a Blob and a DOM link.
- HTML-only constraints, such as `min`, `max`, `required` and the date-picker bounds: the browser enforces them, not the code. The same holds for `disabled` on a button. A disabled Prev or Next click is a no-op, and the pagination methods require that the controls are shown (`totalPages > 1`).
- Asynchrony: `async`/`await` and the order in which overlapping fetches finish. Handlers return the call they start and a `refetch` flag. When `handleFilter` leaves the page other than 1, it starts two fetches, one with the old filters and one from the effect; the model does not say which result is shown last. A method that sets `refetch` does not itself show the spinner; `BeginFetch` is the start of that fetch, and the pagination is hidden from then until `ReceiveLogs`.
- The `loading` flags of the user list and the pending-request list: each is only a spinner.
- Unicode case mapping: `toLowerCase` is modelled on ASCII letters only.
- Numbers are unbounded integers: `parseInt` ignores the 2^53 precision limit, and the model does not distinguish -0 from 0.
- JsString.ParseInt: `parseInt` without a radix also reads a `0x` hexadecimal prefix. The model includes it because JavaScript does. A decimal-only parse would read "0x10" as 0, which the form rejects; JavaScript reads it as 16, which the form accepts.
- AuditLogViewer.ActionBadge: inherited property names of the `variants` object, such as "constructor", are treated like any unknown action.
- MyRequests.Shown: a non-integer `limit` is not modelled; the limit is an integer or missing.
- Register.RegisterPage.HandleSubmit: a falsy `result.error` is shown as the empty string.
- The status badge of an audit-log row (`src/components/admin/auditlogviewer.jsx:235`): a presentation choice between two colours, with no further rule behind it.
- PortPolicyManager.Policy: the `reason`, `username` and `createdAt` fields are only displayed and are not part of the model.
