# FacilityCare session, notification and request rules in Dafny

FacilityCare is a facilities-management web app. Tenants ("regular" users)
raise service requests against the buildings they belong to. Administrators
(superusers) move those requests through open → in progress → completed or
cancelled, comment on them, and manage users and buildings. The React client
talks to a Django REST framework API and receives live notifications over a
web socket.

This project models the logic of both tiers that decides who sees what, what
each call changes, and what is sent back:

- **Client session layer:**
  - the token store (`TokenStorage`);
  - the HTTP client's bearer header and single-retry refresh protocol (`ApiClient`);
  - session restore and forced logout (`Session`);
  - login, logout and registration (`Auth`);
  - the push-socket holder (`PushChannel`);
  - the route guard (`RouteGuard`).
- **Client notifications and tables:**
  - the notification store, its unread badge and its toast timer (`NotificationStore`);
  - table selection and sorting (`DataTable`);
  - the request list's query string (`RequestQuery`);
  - the building-users panel (`BuildingUsers`);
  - the status-change page and dialog (`RequestStatus`);
  - the service search (`RaiseRequest`);
  - the registration form (`Registration`);
  - the request tile's status chip (`RequestTile`).
- **Server:**
  - the data (`Db`) and the model `save()` rules (`Models`);
  - the serializers' validators (`Serializers`);
  - the update, service-request, dashboard, user and building view sets (`UpdateViews`, `RequestViews`, `DashboardViews`, `UserDetailsViews`, `BuildingViews`).

Browser storage, React state and the database tables are class fields or
sequences that the methods reassign. Network answers, the clock and the
WebSocket transport are parameters of the operations that use them.

How time and numbers are represented:

- Times are whole seconds since the epoch, and a day is 86400 seconds.
- Latitudes and longitudes are integers in millionths of a degree, which is
  what the source's `DecimalField(9, 6)` holds.

Where the written code and the application's stated behaviour differ, the
model follows the code, with one exception: for each defect listed under
"## Findings", the as-written behaviour is stated by its own member and the
operations use the corrected rule. Each operation that does so is named
under "## Left out". The differences from the stated behaviour are these:

- `logout` never closes the notification socket.
- `markAllAsRead` changes nothing locally and does not refetch after a failed post.
- The `tokenExpired` handler can never reach `/auth/logout/`, because the client
  removes both tokens before it dispatches the event (`Session.ForcedLogoutIsLocal`).
- A failed logout call is rethrown before the tokens are removed, yet the
  app still navigates to the login page.
- Each `useWebSocket()` call owns its own socket reference, so the user
  provider and every `useAuth()` caller hold separate sockets.
- A missing SLA date is shown as overdue, because `new Date(null)` is the epoch.
- The dashboard is behind `IsAdminUser`, which checks `is_staff`. The web
  app's notion of "admin" is `is_superuser`. A superuser without the staff
  flag is therefore refused there (`BuildingViews.SuperuserWithoutStaffRefused`).
- The findings below list the places where the code evidently does not do
  what its authors meant.

## Model

| member | source | states |
|---|---|---|
| TokenStorage.Stored | frontend/src/api/tokenVerification.js:5-8 | a missing refresh token is stored as the text "undefined"; a present one as itself |
| TokenStorage.AfterSet | frontend/src/api/tokenVerification.js:5-8 | after `setToken` both keys read back the values given and every other key is untouched |
| TokenStorage.AfterRemove | frontend/src/api/tokenVerification.js:18-21 | after `removeToken` both keys are absent and every other key is untouched |
| TokenStorage.PairedAfterEveryWrite | frontend/src/api/tokenVerification.js:5-21 | after any set or remove, either both tokens are stored or neither is |
| TokenStorage.RemoveIdempotent | frontend/src/api/tokenVerification.js:18-21 | removing twice leaves the same storage as removing once |
| TokenStorage.LastWriteWins | frontend/src/api/tokenVerification.js:5-21 | a later set overrides an earlier one, and a remove undoes any set |
| TokenStorage.SetToken | frontend/src/api/tokenVerification.js:5-8 | the storage becomes `AfterSet` of the old storage |
| TokenStorage.GetAccessToken | frontend/src/api/tokenVerification.js:10-12 | returns what is stored under the access key, or nothing |
| TokenStorage.GetRefreshToken | frontend/src/api/tokenVerification.js:14-16 | returns what is stored under the refresh key, or nothing |
| TokenStorage.RemoveToken | frontend/src/api/tokenVerification.js:18-21 | the storage becomes `AfterRemove` of the old storage |
| ApiClient.Authorize | frontend/src/api/apiConfig.js:13-19 | a Bearer header with the stored access token only when a non-empty one exists; otherwise the request is unchanged |
| ApiClient.Settle | frontend/src/api/apiConfig.js:46-47 | without a refresh, a 2xx answer resolves and every other answer or network error is rejected unchanged |
| ApiClient.NoRefreshForLoginOrRetry | frontend/src/api/apiConfig.js:51 | the login call and an already retried request never start a refresh |
| ApiClient.RefreshOnlyOn401 | frontend/src/api/apiConfig.js:51 | a refresh starts only on a 401 answer |
| ApiClient.Client.RefreshAccessToken | frontend/src/api/apiConfig.js:22-42 | with no refresh token it fails and touches nothing; otherwise it posts the token, stores the new pair and returns the access token iff the answer is 2xx with an access token, and removes both tokens on every failure |
| ApiClient.RefreshError | frontend/src/api/apiConfig.js:22-42 | a refused exchange fails with no refresh token, an answer without `access`, or its own error, never an HTTP error of the call |
| ApiClient.RefreshPosted | frontend/src/api/apiConfig.js:23-29 | the stored refresh token is posted exactly when there is one |
| ApiClient.Client.Send | frontend/src/api/apiConfig.js:46-69 | at most one retry and at most one refresh per call; a granted refresh retries once with the new token; a refused refresh removes the tokens, fires exactly one `tokenExpired` and rejects with the refresh exchange's own error, not the 401, after posting the refresh token when there is one; the login URL is never refreshed |
| Session.HasRole | frontend/src/contexts/UserContext.jsx:23 | true iff a user is signed in and has exactly that role |
| Session.OneRoleAtATime | frontend/src/contexts/UserContext.jsx:23 | no signed-in user has two roles |
| Session.UserProvider.FetchUserInfo | frontend/src/contexts/UserContext.jsx:26-46 | loading ends on every path; without an access token nothing else changes; otherwise `/users/me/` goes through the client, the user is signed in iff the call resolves (at once, or after a granted refresh, which stores the new pair), a regular user's socket starts, and on failure both tokens are gone |
| ApiClient.SendOutcome | frontend/src/api/apiConfig.js:46-68 | for any call but the login call: resolved iff the answer is 2xx at once or after a granted refresh; only a 401 touches the tokens, replacing them on a granted refresh and removing them, with the refresh error as the outcome, on a refused one |
| Session.UserProvider.SignIn | frontend/src/contexts/UserContext.jsx:36-43 | a resolved call signs the user in and starts a regular user's socket; a rejected one removes the tokens |
| Session.UserProvider.HandleTokenExpiration | frontend/src/contexts/UserContext.jsx:52-67 | always navigates to /login; posts to logout through the client iff a refresh token is stored; fails iff that call does not resolve, and then keeps the user while the tokens are kept (non-401 failure), removed with a new tokenExpired (refused refresh) or replaced (granted refresh, failed retry); on success the tokens are removed and the user cleared |
| Session.ForcedLogoutIsLocal | frontend/src/contexts/UserContext.jsx:55-58 | after the client's token removal no refresh token remains, so the forced logout never calls the server |
| Auth.Login | frontend/src/hooks/data/useAuth.js:18-39 | success stores the tokens, sets the user, goes home, and starts the socket iff the user is regular; failure removes the tokens and rethrows |
| Auth.Logout | frontend/src/hooks/data/useAuth.js:41-56 | posts to logout through the client iff a refresh token is stored; always navigates to /login; fails iff that call does not resolve, keeping the user, with the tokens kept after a non-401 failure and removed, with a tokenExpired event, when the 401's refresh is refused; on success the tokens are removed and the user cleared |
| Auth.Register | frontend/src/hooks/data/useAuth.js:58-68 | sends the form through the client and returns the account iff the call resolves; the tokens change only as the client's 401 handling changes them |
| PushChannel.TemplateText | frontend/src/hooks/data/useWebSocket.jsx:20 | a missing token is rendered as "null" in the URL |
| PushChannel.SocketUrl | frontend/src/hooks/data/useWebSocket.jsx:18-20 | the URL is the base, then `notifications/?token=`, then the token |
| PushChannel.MessageToast | frontend/src/hooks/data/useWebSocket.jsx:28-40 | the toast has the notification's title, lasts 4000 ms and links to its request |
| PushChannel.RequestPathInjective | frontend/src/hooks/data/useWebSocket.jsx:34-37 | different requests get different toast links |
| PushChannel.NatToStringInjective | frontend/src/hooks/data/useWebSocket.jsx:34-37 | different ids render as different decimal texts |
| PushChannel.SocketHolder.Start | frontend/src/hooks/data/useWebSocket.jsx:16-51 | a no-op while a socket is held; otherwise opens one socket with the stored token; at most one live socket afterwards |
| PushChannel.SocketHolder.OnClose | frontend/src/hooks/data/useWebSocket.jsx:42-45 | the held socket is released and counted as closed |
| PushChannel.SocketHolder.Close | frontend/src/hooks/data/useWebSocket.jsx:53-58 | closes and releases the held socket if there is one, otherwise changes nothing |
| PushChannel.SocketHolder.OnMessage | frontend/src/hooks/data/useWebSocket.jsx:28-40 | one toast per pushed notification |
| PushChannel.SocketHolder.LiveAtMostOne | frontend/src/hooks/data/useWebSocket.jsx:17 | a holder never has two live connections |
| NotificationStore.UnreadCount | frontend/src/utilities/NotificationCount.jsx:7 | the number of unread entries, 0 without a list, never more than the list's length |
| NotificationStore.BadgeIffSomeUnread | frontend/src/utilities/NotificationCount.jsx:9-13 | the badge shows iff some entry is unread |
| NotificationStore.UnreadCountConcat | frontend/src/utilities/NotificationCount.jsx:7 | the count of two lists joined is the sum of their counts |
| NotificationStore.AllUnreadCounted | frontend/src/utilities/NotificationCount.jsx:7 | a list of unread entries counts every entry |
| NotificationStore.Notifications.Fetch | frontend/src/hooks/data/useNotifications.js:20-32 | success replaces the list with `results` or the plain body and returns it; failure keeps the list and returns [] |
| NotificationStore.Notifications.MarkAllAsRead | frontend/src/hooks/data/useNotifications.js:38-48 | one post; the list changes only through a refetch after a successful post |
| NotificationStore.Notifications.MarkNotificationAsRead | frontend/src/hooks/data/useNotifications.js:50-62 | returns the request's path iff the post succeeded |
| NotificationStore.Notifications.TriggerAsWritten | frontend/src/hooks/data/useNotifications.js:64-69 | shows the toast and adds a hide timer while earlier timers stay pending |
| NotificationStore.Notifications.Trigger | frontend/src/hooks/data/useNotifications.js:64-69 | shows `{type, title, message}` and leaves only the new toast's timer pending |
| NotificationStore.Notifications.FireTimer | frontend/src/hooks/data/useNotifications.js:68 | the oldest timer hides the toast; in a valid state it is the shown toast's own |
| NotificationStore.EarlyHideAsWritten | frontend/src/hooks/data/useNotifications.js:64-69 | two toasts in a row: the first toast's timer hides the second early |
| NotificationStore.NoEarlyHide | frontend/src/hooks/data/useNotifications.js:64-69 | with the corrected trigger, the timer that fires is the shown toast's own |
| RouteGuard.RenderIffAdmitted | frontend/src/utilities/ProtectedRoute.jsx:8-33 | the page renders iff loading is over, a user is signed in, the route admits the role (any role when none are listed), and a regular user has a building |
| RouteGuard.RedirectReasons | frontend/src/utilities/ProtectedRoute.jsx:11-30 | spinner iff loading; /login iff no user; /no-buildings only for a regular user without buildings; /unauthorized only for a role the route does not list |
| RouteGuard.NoBuildingsWins | frontend/src/utilities/ProtectedRoute.jsx:24-30 | a regular user without buildings gets /no-buildings on every route, admin-only ones included |
| RouteGuard.BuildingsIrrelevantForOtherRoles | frontend/src/utilities/ProtectedRoute.jsx:24-26 | buildings never change the decision for an admin |
| RouteGuard.RegularOnAdminRoute | frontend/src/utilities/ProtectedRoute.jsx:28-30 | a regular user with buildings is sent to /unauthorized on an admin-only route |
| RouteGuard.Guard | frontend/src/utilities/ProtectedRoute.jsx:8-33 | the spinner iff loading, /login iff no user once loaded, and the page only for a signed-in user the route admits who, if regular, has a building |
| DataTable.WalkStopsAtFalsy | frontend/src/utilities/DataTable.jsx:12 | once a falsy value is reached, the walk returns it |
| DataTable.Walk | frontend/src/utilities/DataTable.jsx:12 | defines the `reduce` along the path parts, stopping at a falsy value; `DataTable.WalkStopsAtFalsy` and `DataTable.WalkConcat` are proved of it |
| DataTable.GetNestedValue | frontend/src/utilities/DataTable.jsx:10-13 | defines the value of a column: the walk along a dotted path, or the member of that name |
| DataTable.WalkConcat | frontend/src/utilities/DataTable.jsx:12 | walking a joined path is walking the first part and then the rest |
| DataTable.NestedField | frontend/src/utilities/DataTable.jsx:10-20 | `a.b` reads field b of object a |
| DataTable.SplitTwo | frontend/src/utilities/DataTable.jsx:12 | a two-part accessor splits into its two names |
| DataTable.SortField | frontend/src/utilities/DataTable.jsx:74-77 | the sort field never holds a dot; an accessor without a dot or `_detail` suffix is its own sort field |
| DataTable.SortFieldDotted | frontend/src/utilities/DataTable.jsx:74 | a dotted accessor is ordered by the part before its first dot |
| DataTable.SortFieldDetail | frontend/src/utilities/DataTable.jsx:74-77 | `name_detail.rest` is ordered by `name` for any field name holding no dot and no `_detail` of its own, multi-word ones such as `service_type` included |
| DataTable.OrderingRoundTrip | frontend/src/utilities/DataTable.jsx:89-91 | the server reads a single-key ordering string back as that key |
| DataTable.OrderingString | frontend/src/utilities/DataTable.jsx:89-91 | defines the ordering value: `field` or `-field` per key, joined with commas; `DataTable.OrderingRoundTrip` is proved of it |
| DataTable.NextSorting | frontend/src/utilities/DataTable.jsx:82-87 | a click keeps exactly one key, for the clicked field; a field not already sorted starts ascending, and an already sorted one changes direction from its first key |
| DataTable.FindField | frontend/src/utilities/DataTable.jsx:79 | finds a key for the field iff there is one, and it is the first such key |
| DataTable.TwoClicksFlipBack | frontend/src/utilities/DataTable.jsx:79-88 | a second click on the same field reverses the first click's direction, and a third gives it back |
| DataTable.Toggled | frontend/src/utilities/DataTable.jsx:64-70 | a selected row is removed, every copy of it, and the other rows stay in their order; an unselected one is appended |
| DataTable.ToggledTwice | frontend/src/utilities/DataTable.jsx:64-70 | toggling a row twice gives back the same selected rows |
| DataTable.ToggledKeepsDistinct | frontend/src/utilities/DataTable.jsx:64-70 | toggling never duplicates a row |
| DataTable.Table.SyncChecks | frontend/src/utilities/DataTable.jsx:49-56 | checked iff everything is selected; indeterminate iff some but not all are selected |
| DataTable.Table.ToggleAll | frontend/src/utilities/DataTable.jsx:58-62 | clears a full or partial selection and selects all rows otherwise |
| DataTable.Table.ToggleRow | frontend/src/utilities/DataTable.jsx:64-70 | the selection becomes `Toggled` of the old one |
| DataTable.Table.SetData | frontend/src/utilities/DataTable.jsx:49-56 | new rows leave the selection as it was |
| DataTable.Table.HandleSort | frontend/src/utilities/DataTable.jsx:72-93 | a no-op unless ordering is allowed; otherwise the next sorting and its ordering string are passed on |
| RequestQuery.FilterParams | frontend/src/hooks/data/useRequests.js:27-31 | every parameter comes from a set filter, and there are no more parameters than filters |
| RequestQuery.FilterParamsCount | frontend/src/hooks/data/useRequests.js:27-31 | exactly one parameter per set filter |
| RequestQuery.FilterParamsInOrder | frontend/src/hooks/data/useRequests.js:27-31 | the parameters are exactly the set filters' `(key, value.id or else value)` pairs, one each, in the filters' order |
| RequestQuery.EverySetFilterSent | frontend/src/hooks/data/useRequests.js:27-30 | every set filter's pair is among the parameters |
| RequestQuery.ParamText | frontend/src/hooks/data/useRequests.js:29 | defines the text of `value.id`, or else `value`: the id when it is non-zero, `[object Object]` for an object whose id is 0, and a plain value as it is |
| RequestQuery.QueryParams | frontend/src/hooks/data/useRequests.js:27-35 | the filter parameters, then `ordering` iff it is non-empty |
| RequestQuery.QueryString | frontend/src/hooks/data/useRequests.js:37 | the query string is empty iff there are no parameters |
| RequestQuery.Endpoint | frontend/src/hooks/data/useRequests.js:37 | the URL has a `?` part iff there are parameters |
| RequestQuery.NothingSetBareEndpoint | frontend/src/hooks/data/useRequests.js:27-37 | with no filter set the bare list URL is fetched |
| RequestQuery.UpdateFilter | frontend/src/hooks/data/useRequests.js:53-55 | only the named key changes (or is appended); every other key keeps its value and place |
| RequestQuery.StatusFilterOnly | frontend/src/hooks/data/useRequests.js:53-55 | setting the status filter of the initial filters gives one `status` parameter |
| RequestQuery.StatusFilterParams | frontend/src/hooks/data/useRequests.js:27-31 | only the status filter is set, so it is the one parameter sent |
| BuildingUsers.AssignPayload | frontend/src/hooks/data/useBuildingUsers.js:35 | the assigned users' ids in their order, followed by the picked ids in theirs |
| BuildingUsers.RemovePayload | frontend/src/hooks/data/useBuildingUsers.js:51-52 | sends every assigned user except the removed one, one id per remaining user, and nothing else |
| BuildingUsers.RemovePayloadStep | frontend/src/hooks/data/useBuildingUsers.js:51-52 | member by member: the assigned ids in their order, with the removed id skipped |
| BuildingUsers.AssignPayloadRepeats | frontend/src/hooks/data/useBuildingUsers.js:35 | picking someone already assigned sends that id twice |
| BuildingUsers.Panel.AssignUsers | frontend/src/hooks/data/useBuildingUsers.js:31-46 | a no-op with an empty pick; otherwise one PUT with the assign payload, and the dialog closed and the pick cleared on every path |
| BuildingUsers.Panel.RemoveUser | frontend/src/hooks/data/useBuildingUsers.js:48-61 | one PUT with the remove payload; the list is refetched only after success |
| RequestStatus.OptionsFor | frontend/src/pages/AdminPages/Requests/RequestView.jsx:19-31 | options exist iff the status is open or in_progress; three of them, the first being the current status |
| RequestStatus.TargetStatus | frontend/src/pages/AdminPages/Requests/components/RequestStatusChangeDialog.jsx:29-38 | `Cancel` is sent as cancelled and `In-Progress` as in_progress, and every other title as completed |
| RequestStatus.OfferedTitleSendsItsValue | frontend/src/pages/AdminPages/Requests/components/RequestStatusChangeDialog.jsx:29-38 | the status sent for an offered option that opens the dialog is the one that option stands for |
| RequestStatus.PickedOptionIsAllowedMove | frontend/src/pages/AdminPages/Requests/RequestView.jsx:19-31 | any offered option other than the current status asks for an allowed move |
| RequestStatus.AllowedMove | frontend/src/pages/AdminPages/Requests/RequestView.jsx:19-31 | defines the moves the options offer: open to in_progress or cancelled, and in_progress to completed or cancelled |
| RequestStatus.CommentError | frontend/src/pages/AdminPages/Requests/components/RequestStatusChangeDialog.jsx:20-24 | valid iff a cancellation has a comment of at most 255 characters, or another move has one of at most 100 |
| RequestStatus.Patch | frontend/src/pages/AdminPages/Requests/components/RequestStatusChangeDialog.jsx:41-44 | the target status, and a missing comment sent as "" |
| RequestStatus.EnabledSubmitIsValid | frontend/src/pages/AdminPages/Requests/components/RequestStatusChangeDialog.jsx:110 | an enabled submit sends a comment that satisfies the schema |
| RequestStatus.SubmitDisabled | frontend/src/pages/AdminPages/Requests/components/RequestStatusChangeDialog.jsx:110 | defines the disabled button: the form is invalid, a cancellation is untouched, or a submit is under way |
| RequestStatus.StatusPicker.Load | frontend/src/pages/AdminPages/Requests/RequestView.jsx:58-69 | the options for the loaded status, with the current one selected |
| RequestStatus.StatusPicker.Pick | frontend/src/pages/AdminPages/Requests/RequestView.jsx:98-104 | picking the current status opens no dialog; any other pick opens it for that title |
| RaiseRequest.FilterServices | frontend/src/contexts/RaiseRequestContext.jsx:126-135 | a blank query shows everything; otherwise exactly the services whose name or description contains it, in any case |
| RaiseRequest.FilterServicesKeepsOrder | frontend/src/contexts/RaiseRequestContext.jsx:130 | the shown list is an order-preserving subsequence of the fetched one |
| RaiseRequest.CaseInsensitive | frontend/src/contexts/RaiseRequestContext.jsx:130-133 | queries that differ only in case show the same services |
| RaiseRequest.Search.Recompute | frontend/src/contexts/RaiseRequestContext.jsx:126-135 | after the effect the shown list is the filter of the query |
| RaiseRequest.Search.ShowSearch | frontend/src/contexts/RaiseRequestContext.jsx:137-148 | on success the fetched services become available and the search opens; on failure the error's message is shown as a FAIL toast and nothing else changes |
| RaiseRequest.Search.SetQuery | frontend/src/contexts/RaiseRequestContext.jsx:126-135 | a new query re-filters the same services |
| RaiseRequest.Search.CloseSearch | frontend/src/contexts/RaiseRequestContext.jsx:86-91 | closes the search and clears the query, the shown list and the available list |
| RaiseRequest.Search.SelectService | frontend/src/contexts/RaiseRequestContext.jsx:80-84 | the picked service is selected, the search closes and the raise dialog opens |
| Registration.ToUserData | frontend/src/pages/Auth/RegistrationForm.jsx:62-70 | password1 is sent as `password` and the building as a one-element `building_ids` |
| Registration.PasswordError | frontend/src/pages/Auth/RegistrationForm.jsx:47-53 | no error iff at least 8 characters with a lower-case letter, an upper-case letter, a digit and one of @$!%*?& |
| Registration.ConfirmError | frontend/src/pages/Auth/RegistrationForm.jsx:54-56 | no error iff the confirmation is given and equals the password |
| Registration.SamplePasswordAccepted | frontend/src/pages/Auth/RegistrationForm.jsx:47-56 | "Test123!" passes both rules |
| Registration.AcceptedPasswordLength | frontend/src/pages/Auth/RegistrationForm.jsx:49 | an accepted password has at least 8 characters |
| Registration.EmailShape | frontend/src/pages/Auth/RegistrationForm.jsx:41-46 | an accepted address has a non-empty name, an `@`, and a dot after it |
| Registration.EmailValid | frontend/src/pages/Auth/RegistrationForm.jsx:41-46 | defines the addresses the pattern accepts: a non-empty local part of its characters, an `@`, a first domain label without a dot, a dot, and a non-empty tail; `Registration.EmailShape` is proved of it |
| Registration.NameErrorsLostAsWritten | frontend/src/pages/Auth/RegistrationForm.jsx:91-96 | name errors land on field names the form does not have |
| Registration.FieldForKey | frontend/src/pages/Auth/RegistrationForm.jsx:81-105 | the seven known keys map to form fields (`password` to password1, `building_ids` to buildingId), and unknown keys to none |
| Registration.FieldForKeyAsWritten | frontend/src/pages/Auth/RegistrationForm.jsx:81-105 | defines the field each server key is set on as written, with `first_name` and `last_name` kept as they are and unknown keys on none; `Registration.NameErrorsLostAsWritten` is proved of it |
| Registration.MessageFor | frontend/src/pages/Auth/RegistrationForm.jsx:80-102 | defines the message set: the fixed text "The selected building no longer exists" for `building_ids`, else the first message the server gave |
| Registration.ApplyErrors | frontend/src/pages/Auth/RegistrationForm.jsx:80-106 | with the corrected field names, errors are set only on form fields, and no existing error disappears |
| Registration.LastErrorShown | frontend/src/pages/Auth/RegistrationForm.jsx:80-106 | a known key's error shows its first message (a fixed one for buildings) unless a later entry overwrites that field |
| Registration.UntouchedKept | frontend/src/pages/Auth/RegistrationForm.jsx:103-104 | entries for other fields or unknown keys leave a field's error alone |
| RequestTile.Words | frontend/src/pages/RegularPages/MyRequests/components/RequestTile.jsx:39-41 | each part is capitalised, one word per part |
| RequestTile.IsOverdue | frontend/src/pages/RegularPages/MyRequests/components/RequestTile.jsx:17 | defines overdue: the time is past the deadline, a missing one counting as the epoch, and the status is neither completed nor cancelled; `RequestTile.FinishedNeverOverdue` and `RequestTile.MissingDeadlineIsOverdue` are proved of it |
| RequestTile.ChipStyle | frontend/src/pages/RegularPages/MyRequests/components/RequestTile.jsx:19-27 | defines the chip colour: green for completed and orange for cancelled in any case of letters, otherwise red when overdue and plain when not; `RequestTile.RedIffOverdue` is proved of it |
| RequestTile.ChipText | frontend/src/pages/RegularPages/MyRequests/components/RequestTile.jsx:33-41 | defines the label: `OVERDUE` over the capitalised status when overdue, else the status split at `_` with each word capitalised and joined by spaces; `RequestTile.InProgressLabel` is proved of it |
| RequestTile.FinishedNeverOverdue | frontend/src/pages/RegularPages/MyRequests/components/RequestTile.jsx:17-25 | completed and cancelled requests are never overdue; a completed one is green and a cancelled one orange |
| RequestTile.RedIffOverdue | frontend/src/pages/RegularPages/MyRequests/components/RequestTile.jsx:17-27 | for lower-case statuses the chip is red iff the request is overdue |
| RequestTile.MissingDeadlineIsOverdue | frontend/src/pages/RegularPages/MyRequests/components/RequestTile.jsx:17 | an open request without a deadline counts as overdue |
| RequestTile.InProgressLabel | frontend/src/pages/RegularPages/MyRequests/components/RequestTile.jsx:33-41 | on time, `in_progress` reads "In Progress" |
| RequestTile.WordsInProgress | frontend/src/pages/RegularPages/MyRequests/components/RequestTile.jsx:39-41 | `in progress` joins to "In Progress" |
| Db.FindUser | backend/requestAPI/api/views/user_details_views.py:71 | finds the user with that key iff one exists |
| Db.Grants | backend/requestAPI/api/views/user_details_views.py:15-20 | defines which requesters a permission class lets through: anyone, any signed-in user, or staff only |
| Db.Denied | backend/requestAPI/api/views/user_details_views.py:15-20 | defines the refusal: 401 for an anonymous requester and 403 for a signed-in one |
| Db.FindBuilding | backend/requestAPI/api/views/user_details_views.py:96 | finds the building with that key iff one exists |
| Db.FindRequest | backend/requestAPI/api/views/update_views.py:41 | finds the request with that key iff one exists |
| Db.FindUpdate | backend/requestAPI/api/views/update_views.py:132 | finds the update with that key iff one exists |
| Db.WithUserBuildings | backend/requestAPI/api/views/user_details_views.py:80 | the user belongs to exactly the named buildings; every other membership is unchanged |
| Db.WithBuildingUsers | backend/requestAPI/api/views/building_views.py:63 | only the named building's users change |
| Db.Matched | backend/requestAPI/api/views/building_views.py:59 | the stored keys that were asked for, each once |
| Db.MatchedCount | backend/requestAPI/api/views/building_views.py:59-60 | defines `count()` of the rows found: the number of stored keys among the ids, each once |
| Db.AllFoundAsWritten | backend/requestAPI/api/views/building_views.py:60 | defines the check as written, comparing that number with the length of the list sent; `Db.DuplicateIdRejectedAsWritten` is proved of it |
| Db.AllFound | backend/requestAPI/api/views/user_details_views.py:76-78 | defines the corrected check, comparing with the number of distinct ids; `Db.AllFoundIff` is proved of it |
| Db.DuplicateIdRejectedAsWritten | backend/requestAPI/api/views/building_views.py:60 | an existing id sent twice fails the count check as written |
| Db.AllFoundIff | backend/requestAPI/api/views/user_details_views.py:76-78 | the corrected check passes iff every id names a row |
| Db.SendNotification | backend/requestAPI/api/views/update_views.py:74 | exactly one push, to the given user |
| Db.CreateUpdate | backend/requestAPI/api/views/service_request_views.py:46-52 | the row is appended with the next key |
| Models.Label | backend/requestAPI/api/views/service_request_views.py:63-65 | a label iff the key is one of the choices, and then the choice's label |
| Models.StatusesAreTheChoices | backend/requestAPI/models.py:32-37 | exactly the four statuses are valid |
| Models.SlaNeverOverwritten | backend/requestAPI/models.py:56 | a set SLA date is never changed by a save |
| Models.SlaDays | backend/requestAPI/models.py:58-63 | defines the days added: 5 for low, 3 for medium, 1 for high, none for any other priority |
| Models.SlaAfterSave | backend/requestAPI/models.py:56-63 | defines the SLA date after a save: a set one kept, an empty one filled in from the priority; `Models.SlaFromPriority` and `Models.SlaNeverOverwritten` are proved of it |
| Models.SavedAsWritten | backend/requestAPI/models.py:48-65 | defines the row a save writes as written, with the creation date moved to the save time; `Models.CreatedDateMovesAsWritten` is proved of it |
| Models.Saved | backend/requestAPI/models.py:55-65 | defines the row a save writes with the creation date set only on insertion; `Models.ResaveChangesOnlyDates` is proved of it |
| Models.SlaFromPriority | backend/requestAPI/models.py:55-63 | an empty SLA date becomes +5, +3 or +1 days for low, medium or high, and stays empty for any other priority |
| Models.HigherPriorityDueSooner | backend/requestAPI/models.py:58-63 | a higher priority gets an earlier SLA date from the same save |
| Models.ResaveChangesOnlyDates | backend/requestAPI/models.py:55-65 | a later save changes only the dates |
| Models.CreatedDateMovesAsWritten | backend/requestAPI/models.py:48 | as written, every save moves `created_date` to the save time |
| Models.DefaultsOnCreate | backend/requestAPI/models.py:46-47 | a new request is open and low priority, and due five days on |
| Models.InsertRequest | backend/requestAPI/models.py:55-65 | the first save appends the saved row with the next key |
| Models.SaveRequest | backend/requestAPI/models.py:55-65 | a later save writes over the row |
| Models.BuildingStrTitle | backend/requestAPI/models.py:18-19 | a nameless building is shown starting "Building - "; a named one starts with its name; both end with the country |
| Models.BuildingStr | backend/requestAPI/models.py:18-19 | defines the text of a building: its name, or "Building" when it has none or an empty one, then the address fields separated by commas; `Models.BuildingStrTitle` is proved of it |
| Models.BuildingStrSample | backend/requestAPI/models.py:18-19 | the text of a sample building |
| Serializers.UserType | backend/requestAPI/serializers.py:32-34 | "admin" iff superuser, otherwise "regular" |
| Serializers.StaffAloneIsRegular | backend/requestAPI/serializers.py:32-34 | a staff member who is not a superuser is "regular" |
| Serializers.UnknownBuildingAcceptedAsWritten | backend/requestAPI/serializers.py:57-59 | a list with one existing and one unknown building passes as written |
| Serializers.ValidateUser | backend/requestAPI/serializers.py:36-61 | accepted data is returned unchanged |
| Serializers.RegistrationAcceptedIff | backend/requestAPI/serializers.py:38-48 | registration is accepted iff both passwords are given and match, the username and email are free, and every building named exists |
| Serializers.UpdateEmailUnique | backend/requestAPI/serializers.py:51-54 | an accepted update leaves no other user with that email |
| Serializers.UpdateIgnoresPasswords | backend/requestAPI/serializers.py:51-59 | an update is never refused for passwords or a taken username |
| Serializers.ValidatePasswordChange | backend/requestAPI/serializers.py:122-125 | accepted iff the two new passwords are equal |
| Serializers.ValidateCurrentPassword | backend/requestAPI/serializers.py:128-132 | accepted iff the password is the user's |
| Serializers.ValidateLatitude | backend/requestAPI/serializers.py:148-151 | accepted iff within [-90, 90] degrees |
| Serializers.ValidateLongitude | backend/requestAPI/serializers.py:154-157 | accepted iff within [-180, 180] degrees |
| Serializers.LatitudeRangeInsideLongitudeRange | backend/requestAPI/serializers.py:148-157 | every valid latitude is a valid longitude |
| Serializers.ValidateIcon | backend/requestAPI/serializers.py:165-178 | accepted iff at most 5 MB and of a JPEG, PNG or GIF type; the size error comes first |
| Serializers.GuessImageType | backend/requestAPI/serializers.py:172 | a recognised type is one of the allowed image types |
| Serializers.PngIconAccepted | backend/requestAPI/serializers.py:165-178 | a `.png` of at most 5 MB is accepted |
| Serializers.CleanIconUrlShape | backend/requestAPI/serializers.py:190-193 | the cleaned URL has no line break and no surrounding space, and a doubled scheme is collapsed once |
| Serializers.CleanIconUrl | backend/requestAPI/serializers.py:190-193 | defines the URL sent: line breaks removed, white space stripped, a doubled leading scheme collapsed once; `Serializers.CleanIconUrlShape` and `Serializers.CleanIconUrlKeepsCleanUrl` are proved of it |
| Serializers.CleanIconUrlKeepsCleanUrl | backend/requestAPI/serializers.py:190-193 | a URL that needs no cleaning is sent unchanged |
| Serializers.IconInRepresentation | backend/requestAPI/serializers.py:186-195 | a URL iff the type has an icon, and it has no line break |
| Serializers.SetAllFields | backend/requestAPI/serializers.py:80-81 | each given field gets its value and every other field keeps its own |
| Serializers.SetAttr | backend/requestAPI/serializers.py:81 | defines `setattr` for the four text fields of the user, any other name leaving the user as it is; `Serializers.FieldAfterSet` is proved of it |
| Serializers.SetAll | backend/requestAPI/serializers.py:80-81 | defines the validated fields applied in order; `Serializers.SetAllFields` is proved of it |
| Serializers.WithPassword | backend/requestAPI/serializers.py:84-85 | defines the password after an update: the one sent when it is non-empty, else the stored one; `Serializers.UpdateUser` states it |
| Serializers.FieldAfterSet | backend/requestAPI/serializers.py:81 | one `setattr` changes the field it names, when the user has it, and no other |
| Serializers.SetFields | backend/requestAPI/serializers.py:80-81 | the loop leaves the user with every given field set in order, and the key and the flags unchanged |
| Serializers.UpdateUser | backend/requestAPI/serializers.py:75-94 | fields are set, the password only when a non-empty one is given, buildings only when listed, and the row is written over |
| UpdateViews.Visible | backend/requestAPI/api/views/update_views.py:27-35 | the visible updates keep table order |
| UpdateViews.VisibleRule | backend/requestAPI/api/views/update_views.py:27-35 | outside `service_request_updates` a user who is neither staff nor superuser sees exactly the updates associated to them; everyone else sees all |
| UpdateViews.CreatedRecipient | backend/requestAPI/api/views/update_views.py:43-46 | associated to the creator iff the author is a superuser |
| UpdateViews.CreatedKind | backend/requestAPI/api/views/update_views.py:48-53 | a non-superuser's update is always a message |
| UpdateViews.PerformCreate | backend/requestAPI/api/views/update_views.py:39-74 | one update with the comment title, the superuser-only recipient and type; one push iff it is associated to someone |
| UpdateViews.RequestUpdates | backend/requestAPI/api/views/update_views.py:78-84 | 400 without a request id; otherwise exactly that request's updates |
| UpdateViews.CommentRecipient | backend/requestAPI/api/views/update_views.py:97-100 | nobody when the creator comments on their own request, the creator otherwise |
| UpdateViews.CommentRecipientAsWritten | backend/requestAPI/api/views/update_views.py:97-100 | defines the recipient as written: the creator, always; `UpdateViews.OwnCommentSelfAssociatedAsWritten` is proved of it |
| UpdateViews.OwnCommentSelfAssociatedAsWritten | backend/requestAPI/api/views/update_views.py:97 | as written, the creator's own comment is associated to them and shown back to them |
| UpdateViews.PostComment | backend/requestAPI/api/views/update_views.py:86-114 | 400 without a request id, 404 for an unknown one; otherwise one message update, with the corrected recipient |
| UpdateViews.NotificationsFor | backend/requestAPI/api/views/update_views.py:117-121 | exactly the unread updates associated to the user and written by others, newest first |
| UpdateViews.IsNotification | backend/requestAPI/api/views/update_views.py:119 | defines a notification: an update associated to the user, unread, and written by someone else |
| UpdateViews.Mine | backend/requestAPI/api/views/update_views.py:119 | the same notifications in table order |
| UpdateViews.ClientViews | backend/requestAPI/api/views/update_views.py:120 | one client notification per update |
| UpdateViews.BadgeCountsEveryNotification | backend/requestAPI/api/views/update_views.py:119 | the web app's badge counts every notification the server lists |
| UpdateViews.ClientView | frontend/src/hooks/data/useNotifications.js:23-24 | defines the item the web app keeps for an update: its key, title, message, read flag and request, with a missing title or message as "" |
| UpdateViews.MarkedAllRead | backend/requestAPI/api/views/update_views.py:126-127 | exactly the user's updates become read |
| UpdateViews.NoNotificationAfterMarkAll | backend/requestAPI/api/views/update_views.py:124-128 | after marking all read the user has no notifications |
| UpdateViews.MarkAllLeavesOthers | backend/requestAPI/api/views/update_views.py:126-127 | every other user keeps their notifications |
| UpdateViews.MarkAllRead | backend/requestAPI/api/views/update_views.py:124-128 | the table becomes `MarkedAllRead` |
| UpdateViews.MarkReadTarget | backend/requestAPI/api/views/update_views.py:131-135 | the update is found among the visible ones (404) and must be associated to the requester (403) |
| UpdateViews.ForbiddenOnlyForStaff | backend/requestAPI/api/views/update_views.py:132-135 | a regular user never gets the 403, only a 404 |
| UpdateViews.OwnUpdateMarkable | backend/requestAPI/api/views/update_views.py:131-139 | a user's own update is always found and may be marked |
| UpdateViews.MarkRead | backend/requestAPI/api/views/update_views.py:131-139 | on success only that update becomes read; on error nothing changes |
| RequestViews.BySla | backend/requestAPI/api/views/service_request_views.py:25 | a permutation in ascending SLA order, with missing dates last |
| RequestViews.SlaOrdered | backend/requestAPI/api/views/service_request_views.py:25 | defines SLA order: ascending dates, with the requests without one after all the others |
| RequestViews.Own | backend/requestAPI/api/views/service_request_views.py:27 | exactly the user's requests, newest first |
| RequestViews.NewestFirst | backend/requestAPI/api/views/service_request_views.py:27 | defines newest first: creation dates never ascend |
| RequestViews.WithId | backend/requestAPI/api/views/service_request_views.py:29-30 | the own requests with that key, still newest first |
| RequestViews.Queryset | backend/requestAPI/api/views/service_request_views.py:20-32 | a superuser sees every request and anyone else their own (with that key when asked) |
| RequestViews.SuperuserSeesAllBySla | backend/requestAPI/api/views/service_request_views.py:24-25 | a superuser sees every request once, by SLA date |
| RequestViews.OthersSeeOwnNewestFirst | backend/requestAPI/api/views/service_request_views.py:27-32 | others see exactly their own requests, newest first |
| RequestViews.Retrieve | backend/requestAPI/api/views/service_request_views.py:34-41 | a retrieved request exists and has that key |
| RequestViews.RetrieveRule | backend/requestAPI/api/views/service_request_views.py:34-41 | readable iff it exists and the user created it or is a superuser; otherwise a 404 |
| RequestViews.CreateRequest | backend/requestAPI/api/views/service_request_views.py:44-53 | the saved request and then one "Request Created" event are appended, so the new request has exactly one more event |
| RequestViews.StatusChangeUpdates | backend/requestAPI/api/views/service_request_views.py:67-95 | an event first, then a comment iff one was given; all are associated to the creator |
| RequestViews.RecordStatusChange | backend/requestAPI/api/views/service_request_views.py:67-95 | appends those updates and pushes the event to the creator |
| RequestViews.UpdateStatus | backend/requestAPI/api/views/service_request_views.py:55-97 | 404 outside the query set; a status outside the choices is refused; otherwise the status is saved and the updates recorded |
| RequestViews.SaveStatus | backend/requestAPI/api/views/service_request_views.py:61-95 | the request is saved first; without a status the answer is a 400 and no update is written; with one, the status is saved, the event and any comment appended and the event pushed to the creator |
| RequestViews.StatusChangeByCreatorOrSuperuser | backend/requestAPI/api/views/service_request_views.py:57 | only the creator or a superuser reaches a status change |
| DashboardViews.WindowDays | backend/requestAPI/api/views/dashboard_views.py:26-31 | 7 for "7days", 30 for "30days", 90 for anything else |
| DashboardViews.DayOf | backend/requestAPI/api/views/dashboard_views.py:36 | defines the day a time falls on (`TruncDay`) as whole days since the epoch; `DashboardViews.Days` and `DashboardViews.CountByDay` group by it |
| DashboardViews.Window | backend/requestAPI/api/views/dashboard_views.py:34-35 | exactly the requests created since the start of the window, in table order |
| DashboardViews.LongerWindowHoldsShorter | backend/requestAPI/api/views/dashboard_views.py:26-35 | a longer window holds every request of a shorter one |
| DashboardViews.Days | backend/requestAPI/api/views/dashboard_views.py:36 | exactly the days on which some request was created |
| DashboardViews.CountByDay | backend/requestAPI/api/views/dashboard_views.py:36 | one positive count per day, equal to the number of requests that day |
| DashboardViews.RequestsOverTime | backend/requestAPI/api/views/dashboard_views.py:17-38 | the window's requests counted per day, with days having none left out |
| DashboardViews.DayCountsCover | backend/requestAPI/api/views/dashboard_views.py:36 | one day's count plus the rest is the whole window |
| DashboardViews.TodaysUpdates | backend/requestAPI/api/views/dashboard_views.py:40-59 | only a staff superuser is answered, and a staff non-superuser gets the 403; the answer is exactly today's messages, newest first |
| DashboardViews.ActionRequiredListsUrgent | backend/requestAPI/api/views/dashboard_views.py:62-77 | exactly the open or in-progress requests due within three days, or overdue, earliest deadline first |
| DashboardViews.Urgent | backend/requestAPI/api/views/dashboard_views.py:69-71 | defines urgent: a deadline at most three days after now, or past, and the status open or in_progress; a request without a deadline is never urgent; `DashboardViews.FarDeadlineNotListed` is proved of it |
| DashboardViews.ActionRequired | backend/requestAPI/api/views/dashboard_views.py:69-72 | defines the list as the urgent requests put in SLA order by `RequestViews.BySla`; `DashboardViews.ActionRequiredListsUrgent` states its contents and order |
| DashboardViews.UrgentInDeadlineOrder | backend/requestAPI/api/views/dashboard_views.py:69-72 | any SLA-ordered permutation of the urgent requests holds exactly the urgent requests, each with a deadline, in ascending order of deadline |
| DashboardViews.FarDeadlineNotListed | backend/requestAPI/api/views/dashboard_views.py:70 | a request due more than three days ahead is never listed |
| DashboardViews.GeneralStats | backend/requestAPI/api/views/dashboard_views.py:100-110 | the numbers of open, in-progress and completed requests |
| DashboardViews.StatsCoverAll | backend/requestAPI/api/views/dashboard_views.py:100-110 | with valid statuses, the three figures plus the cancelled requests add up to all requests |
| DashboardViews.NewOpenRequestCounted | backend/requestAPI/api/views/dashboard_views.py:102 | a new open request adds one to the open figure only |
| UserDetailsViews.PermissionAsWritten | backend/requestAPI/api/views/user_details_views.py:15-21 | admin-only iff the action is list, create, destroy, superusers or users_not_assigned_to_building; otherwise authentication is enough |
| UserDetailsViews.RegularUserMayDeleteAsWritten | backend/requestAPI/api/views/user_details_views.py:15-21 | as written, a non-staff user may bulk-delete and reassign buildings but not destroy |
| UserDetailsViews.Permission | backend/requestAPI/api/views/user_details_views.py:16 | only `me` and `retrieve` are open to every signed-in user; every other action needs staff |
| UserDetailsViews.PermissionNoLooserThanWritten | backend/requestAPI/api/views/user_details_views.py:15-21 | the corrected rule grants nothing the written one refuses |
| UserDetailsViews.Search | backend/requestAPI/api/views/user_details_views.py:23-34 | no or an empty query lists everyone; otherwise exactly the users whose username, names or email contain it, in any case, in table order |
| UserDetailsViews.SearchIgnoresCase | backend/requestAPI/api/views/user_details_views.py:29-32 | a query and its lower-case form list the same users |
| UserDetailsViews.Targets | backend/requestAPI/api/views/user_details_views.py:56 | exactly the users whose key was asked for |
| UserDetailsViews.Gone | backend/requestAPI/api/views/user_details_views.py:56 | the keys asked for that name a user |
| UserDetailsViews.BlacklistOwned | backend/requestAPI/api/views/user_details_views.py:61-63 | exactly the tokens of the given users become blacklisted |
| UserDetailsViews.ClearMemberships | backend/requestAPI/api/views/user_details_views.py:64 | the given users leave every building |
| UserDetailsViews.ReleaseUsers | backend/requestAPI/api/views/user_details_views.py:60-64 | the loop blacklists the targets' tokens and removes them from every building |
| UserDetailsViews.Orphan | backend/requestAPI/api/views/user_details_views.py:66 | a deleted user's tokens stay, with no owner |
| UserDetailsViews.DeleteUsers | backend/requestAPI/api/views/user_details_views.py:66 | the users go, with their requests and the updates that refer to them or to those requests |
| UserDetailsViews.NothingLeftOfDeleted | backend/requestAPI/api/views/user_details_views.py:60-66 | afterwards no row refers to a deleted user or a deleted request |
| UserDetailsViews.DeletedCount | backend/requestAPI/api/views/user_details_views.py:67 | the number of users deleted |
| UserDetailsViews.UsersAfter | backend/requestAPI/api/views/user_details_views.py:66 | defines the users left: those not deleted, in table order |
| UserDetailsViews.RequestsAfter | backend/requestAPI/models.py:50 | defines the requests left: those whose creator is not deleted (`CASCADE`) |
| UserDetailsViews.UpdatesAfter | backend/requestAPI/models.py:78-80 | defines the updates left: neither written by nor associated to a deleted user, nor on a deleted request (`CASCADE`) |
| UserDetailsViews.DeletedCountAsWritten | backend/requestAPI/api/views/user_details_views.py:66 | defines the number `delete()` returns: the users, requests and updates the cascade removes; `UserDetailsViews.CascadeCountedAsWritten` is proved of it |
| UserDetailsViews.DeletedMessage | backend/requestAPI/api/views/user_details_views.py:67 | defines the message: the number followed by " user(s) deleted successfully." |
| UserDetailsViews.CascadeCountedAsWritten | backend/requestAPI/api/views/user_details_views.py:66-67 | as written, deleting one user with one request and one comment reports 3 |
| UserDetailsViews.DeletedCountIsDistinctIds | backend/requestAPI/api/views/user_details_views.py:66-67 | the corrected count is the number of distinct existing ids asked for |
| UserDetailsViews.BulkDelete | backend/requestAPI/api/views/user_details_views.py:50-67 | 400 without ids and 404 when none exist, with nothing changed; otherwise the users are released and deleted, and the message gives the number of users |
| UserDetailsViews.AssignBuildings | backend/requestAPI/api/views/user_details_views.py:69-81 | 404 for an unknown user, 400 for no ids or any unknown id; otherwise the user's buildings are exactly those named |
| UserDetailsViews.Superusers | backend/requestAPI/api/views/user_details_views.py:83-87 | exactly the superusers, for staff |
| UserDetailsViews.UsersNotAssigned | backend/requestAPI/api/views/user_details_views.py:89-101 | 400 without a building id, 404 for an unknown one; otherwise exactly the non-staff users not in the building |
| BuildingViews.PermissionFor | backend/requestAPI/api/views/building_views.py:23-30 | list, retrieve and search need sign-in; registration_list is open; everything else needs staff |
| BuildingViews.WritesNeedStaff | backend/requestAPI/api/views/building_views.py:23-30 | every change and every user listing of a building needs staff |
| BuildingViews.Queryset | backend/requestAPI/api/views/building_views.py:32-36 | superusers and staff see every building; others see exactly the ones that list them |
| BuildingViews.RegularUserSeesOwnBuildings | backend/requestAPI/api/views/building_views.py:36 | a regular user sees a building iff it lists them |
| BuildingViews.GetObject | backend/requestAPI/api/views/building_views.py:55 | found iff a building with that key is among those the requester sees (all for staff and superusers, those listing a regular user), otherwise a 404 |
| BuildingViews.SuperuserWithoutStaffRefused | backend/requestAPI/api/views/building_views.py:29 | an "admin" of the web app without the staff flag sees every building but is refused with 403 |
| BuildingViews.UpdateUsers | backend/requestAPI/api/views/building_views.py:53-64 | 404 for an unseen building, 400 for any unknown id; otherwise its users are exactly those named, and an empty list empties it |
| BuildingViews.AvailableUsers | backend/requestAPI/api/views/building_views.py:66-71 | exactly the users who are not superusers and not in the building |
| BuildingViews.AddingAvailableLeavesNone | backend/requestAPI/api/views/building_views.py:53-71 | after every offered user is added, none is offered any more |

## Left out

- JSX rendering, dialogs, the loading overlay, chart components and date formatting (`moment`, `formatDate`, `isDateString`) are presentation only.
- Concurrency is not modelled: racing fetches and pushes, and concurrent refreshes. The source has no serialisation of them.
- Timers are a queue of pending hides, and each fires at the caller's step. Real time is not modelled.
- axios, `localStorage`, the WebSocket transport, JSON parsing and the browser's `window` events are not modelled. Their outcomes are parameters.
- Channels' group delivery is the list of pushes sent.
- The Django ORM is sequences of rows.
- Password hashing: `check_password` is an equality with the stored password.
- `validate_password`'s strength rules belong to Django and are not modelled.
- The `me` action is not a separate member. It is `Serializers.ValidateUser` followed by `Serializers.UpdateUser`.
- `registration_list`, the building `users` action and `user_home_data` are not modelled. Each returns a table or relation unchanged.
- `requests_by_building` and `requests_by_service_type` are not modelled. They are group-by counts of the same kind as `DashboardViews.CountByDay`.
- The list orderings by name (`-name` on buildings) are not modelled. Query sets keep table order there.
- The service-request list's default `-id` ordering is not modelled either, because `get_queryset`'s own `order_by` is what the model keeps.
- A non-numeric `building_id` makes `users_not_assigned_to_building` answer 500. `UserDetailsViews.UsersNotAssigned` takes the id as a number or nothing, so this case is not modelled.
- The search filter backends that `get_object` also applies are not modelled. Only the view's own `get_queryset` is.
- ServiceRequestSerializer's own field validation is not modelled beyond the status choices.
- The `consumers.py` connect check, the token middleware and `utils.py` are not modelled. `send_notification_to_user` is `Db.SendNotification`.
- Calls other than `/users/me/`, `/auth/logout/` and `/auth/register/` take their settled outcome as a parameter: the notification, building-user, status, search and login calls. What the client does to the tokens on a 401 during one of them is stated once, by `ApiClient.Client.Send`, and not repeated per call. The login call is never refreshed, so its outcome is the server's answer.
- Serializers.GuessImageType: only Python's entries for the three allowed image types are modelled, and every other name gives `None`. `mimetypes.guess_type` also names other types, so for `notes.txt` the message reads `text/plain` where the model's reads `None`. It also strips a compression suffix first, so `icon.png.gz` is `image/png` and is accepted, where the model refuses it.
- Session.UserProvider.FetchUserInfo: the body of the `/users/me/` answer is a parameter; JSON parsing and the `console.error` call are not modelled.
- Models.SaveRequest: saves with the corrected `auto_now_add` creation date. As written, `auto_now=True` (models.py:48) moves `created_date` on every save; `Models.CreatedDateMovesAsWritten` states that.
- RequestViews.UpdateStatus: saves through `Models.SaveRequest`, so the creation date stays, where the written code moves it.
- RequestViews.SaveStatus: the same corrected save as `RequestViews.UpdateStatus`.
- Serializers.ValidateUser: refuses `building_ids` when any id is unknown, the corrected rule. As written (serializers.py:57-59) it refuses only when none exists; `Serializers.UnknownBuildingAcceptedAsWritten` states that.
- UpdateViews.PostComment: associates a comment to nobody when the creator writes it, the corrected recipient. As written (update_views.py:97) it is always associated to the creator; `UpdateViews.OwnCommentSelfAssociatedAsWritten` states that.
- Registration.ApplyErrors: maps `first_name`/`last_name` to the form's `firstname`/`lastname` fields, the corrected mapping. As written (RegistrationForm.jsx:91-96) those errors go to fields the form does not have; `Registration.NameErrorsLostAsWritten` states that.
- UserDetailsViews.AssignBuildings: uses the corrected permission, so a signed-in non-staff user is refused, and the corrected id check, so a repeated id such as `[3, 3]` is accepted. As written (user_details_views.py:15-21 and 77) the user is let through and the repeated id is refused; `UserDetailsViews.RegularUserMayDeleteAsWritten` and `Db.DuplicateIdRejectedAsWritten` state those.
- BuildingViews.UpdateUsers: uses the corrected id check, so `user_ids = [5, 5]` is accepted. As written (building_views.py:60) it is refused with 400; `Db.DuplicateIdRejectedAsWritten` states that.
- Case mapping is ASCII only (`Text.Lower`, `Text.ToLower`, `Text.Capitalize`). JavaScript's `toLowerCase`/`toUpperCase` and Django's `icontains` also map non-ASCII letters, so `RaiseRequest.FilterServices`, `RaiseRequest.CaseInsensitive`, `UserDetailsViews.Search`, `UserDetailsViews.SearchIgnoresCase` and `RequestTile.Words` are exact for ASCII text only.
- RequestQuery.QueryString does no URL encoding. `URLSearchParams` percent-encodes reserved characters and writes spaces as `+`.
- Lengths are counted in characters. `Registration.PasswordError` and `RequestStatus.CommentError` use `|s|`; Yup and JavaScript's `.length` count UTF-16 code units, which differ for characters outside the Basic Multilingual Plane.
- RequestViews.BySla puts requests without an SLA date last, which is PostgreSQL's order for ascending `NULL`s. Under SQLite, the settings' default database, they come first.
- PushChannel.SocketHolder.Close: releases the socket at once, as its `onclose` handler does. In the browser, `close()` (useWebSocket.jsx:53-57) only starts the closing handshake, and the `onclose` set at useWebSocket.jsx:42 runs later and clears whatever socket the ref then holds. After Close, Start, that late `onclose` and Start again, two sockets are open. The model does not capture this delayed callback. `closeWebSocket` has no caller in the web app's sources.
- DataTable.Toggled: compares rows by value. `includes` and `!==` compare the row objects by reference, so two equal rows from different fetches are two rows in the web app and one in the model. `DataTable.ToggledKeepsDistinct` is stated for the same value equality.
- UserDetailsViews.BulkDelete: uses the corrected permission and the corrected count, as the findings explain. The as-written versions are stated by the lemmas named there.

## Findings

| source | as written | input that shows it | evidently intended | confidence | as-written member | corrected member |
|---|---|---|---|---|---|---|
| frontend/src/pages/Auth/RegistrationForm.jsx:91-96 | server errors for `first_name`/`last_name` are set on fields of those names, but the form's fields are `firstname`/`lastname` | a register answer with `{"first_name": ["too long"]}` | show the error under the first-name field | high, not executed | Registration.NameErrorsLostAsWritten | Registration.FieldForKey |
| backend/requestAPI/api/views/building_views.py:60 | `count() != len(ids)` counts rows, so an id sent twice fails (also user_details_views.py:77) | `user_ids = [5, 5]` with user 5 existing, as the panel sends when an assigned user is picked again (`BuildingUsers.AssignPayloadRepeats`) | refuse only ids that name no row | high, not executed | Db.DuplicateIdRejectedAsWritten | Db.AllFoundIff |
| backend/requestAPI/api/views/update_views.py:97 | compares `request.user.id` (a number) with `created_by` (a User), which is never equal | the creator of request 7 posts a comment on it | no notification for a comment on one's own request | high, not executed | UpdateViews.OwnCommentSelfAssociatedAsWritten | UpdateViews.CommentRecipient |
| frontend/src/hooks/data/useNotifications.js:68 | each toast starts a hide timer and never clears the previous one | two toasts 2 s apart: the first timer hides the second after 1 s | each toast stays its full 3 s | high, not executed | NotificationStore.EarlyHideAsWritten | NotificationStore.NoEarlyHide |
| backend/requestAPI/api/views/user_details_views.py:66-67 | the message reports `delete()`'s total, which includes cascaded requests and updates | delete one user who has one request with one comment: "3 user(s) deleted" | the number of users deleted | high, not executed | UserDetailsViews.CascadeCountedAsWritten | UserDetailsViews.DeletedCountIsDistinctIds |
| backend/requestAPI/api/views/user_details_views.py:15-21 | `bulk_delete` and `assign_buildings` are not in the admin list, so any signed-in user may call them, although the comment says regular users can only read | a regular user sends `DELETE /users/bulk_delete/` with another user's id | only staff may delete users or assign buildings | medium, not executed | UserDetailsViews.RegularUserMayDeleteAsWritten | UserDetailsViews.PermissionNoLooserThanWritten |
| backend/requestAPI/models.py:48 | `created_date` is `auto_now`, so every save moves it | a status change on a request created last week | the creation date stays fixed (`auto_now_add`) | medium, not executed | Models.CreatedDateMovesAsWritten | Models.ResaveChangesOnlyDates |
| backend/requestAPI/serializers.py:57-59 | a non-empty `building_ids` is refused only when none of its ids exists | `building_ids = [1, 99]` with only building 1 stored | refuse the list when any building does not exist, as the message says | high, not executed | Serializers.UnknownBuildingAcceptedAsWritten | Serializers.RegistrationAcceptedIff |
