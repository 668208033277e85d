# Admin back-office access rules and screen logic, modelled in Dafny

This project models the decision logic of the back-office of a service-provider
marketplace, where administrators manage users, service categories, governorates
and service providers. The model covers the following.

- **Admin access.** It models the edge middleware that guards `/admin` paths on
  the presence of the `sb-access-token` cookie. It models reading a session back
  from the two token cookies (`getSession`), the login gate (`requireAuth`) and
  the admin gate (`requireAdminAuth`). It also models `signOut` and the phone
  login action `signInWithPhone`: its ordered decision chain, the two cookies it
  writes, and the classification of provider error text (`getErrorMessage`).
- **String and path helpers.** It models the category slug generator
  `generateSlug`, the icon preview of the category form, and the file previews
  and hidden fields of the service-provider form.
- **Pagination.** It models the page count, when the pager shows, the enabled
  buttons and their targets, and how `handlePageChange` rewrites the query
  string.
- **Screen state.** It models the confirmation badge and row actions of the users
  table, the four faces of the confirmation dialog, and the status picker of a
  service provider. It also models the delete confirmation of the users,
  categories and governorates tables.

Calls into the identity provider and the database are parameters of the model:
each is an oracle that gives what the call answers, or that it threw. The same
holds for the framework's `cookies()` store, the router and the browser. The
cookie store is a class over a `map`, and the component state of each screen is
a class whose methods update its fields. The pure rules are functions, and the
lemmas state what the code promises about them.

Modules (one file each): `Wrappers`, `Text` (the JavaScript string operations the
code uses), `Records` (the rows), `Cookies`, `Middleware`, `AuthUtils`,
`LoginActions`, `CategoryForm`, `Pagination`, `CrudTable`, `ConfirmationDialog`,
`UsersTable`, `StatusDropdown`, `ServiceProviderForm`.

Where the intended behaviour and the code differ, the model follows the code:

- The admin gate never reads `is_banned`. A banned account whose row says admin
  passes `requireAdminAuth`. Only the login action checks the ban.
- The admin gate clears no cookies when it refuses someone.
- The middleware exempts `/admin/login` and `/admin/unauthorized` by prefix, so
  `/admin/login-x` is exempt as well.
- The users table renders its `initialUsers` prop and never edits a local copy,
  so a deleted user stays on screen until the server refreshes the page.
- The banned and non-admin branches of the login leave any cookies already
  present as they are. They sign out at the provider only.

## Model

| member | source | states |
|---|---|---|
| Middleware.Middleware | middleware.ts:4-23 | redirects to "/admin/login" exactly when the path is under "/admin", under neither exempt prefix, and no access-token cookie is present |
| Middleware.IsProtected | middleware.ts:8-12 | a path is protected when it starts with "/admin" and with neither "/admin/login" nor "/admin/unauthorized" |
| Middleware.MatcherApplies | middleware.ts:25-32 | the matcher covers "/admin" itself and every path below "/admin/" |
| Middleware.EdgeFilter | middleware.ts:25-32 | a request outside the `/admin/:path*` matcher always continues; inside it the middleware decides |
| Middleware.OutsideAdminContinues | middleware.ts:8-9 | a path not starting with "/admin" continues whatever the cookies |
| Middleware.ExemptPrefixesContinue | middleware.ts:10-11 | paths starting with "/admin/login" or "/admin/unauthorized" continue whatever the cookies |
| Middleware.PrefixMatchingExamples | middleware.ts:8-12 | "/admin/login-x" is exempt; "/administrator" is guarded by the function but never reaches it through the matcher; "/admin/users" without the cookie is redirected |
| Middleware.OnlyAccessTokenPresenceMatters | middleware.ts:14-17 | two cookie jars that agree on whether the access token is present get the same decision, whatever the values and the refresh token |
| Middleware.RedirectTargetIsExempt | middleware.ts:18 | the redirect target itself continues, so one redirect never leads to another |
| Cookies.ValueOf | lib/auth/utils.ts:9-10 | `get(name)?.value` is present exactly when the cookie is, and holds its value |
| AuthUtils.GetSession | lib/auth/utils.ts:6-31 | no session unless both cookies hold a value; a session's tokens are the cookie values and its user is the one the provider accepted; with both cookies and an accepting provider there is a session |
| AuthUtils.GetSessionSkipsProviderWithoutTokens | lib/auth/utils.ts:12-14 | without both cookies the provider's answer cannot change the result, which is null |
| AuthUtils.GetSessionFailsClosed | lib/auth/utils.ts:22-30 | a provider error, a missing user or an exception gives no session |
| AuthUtils.RequireAuth | lib/auth/utils.ts:33-41 | redirects to the login page exactly when there is no session, otherwise proceeds with that session |
| AuthUtils.RequireAdminAuth | lib/auth/utils.ts:43-63 | admission needs a session and either the metadata flag or a database row with a true `is_admin`; the unauthorized redirect happens only when both are missing; with a session the caller is never sent to the login page; the gate raises exactly when the lookup throws for a session without the metadata flag |
| AuthUtils.MetadataSaysAdmin | lib/auth/utils.ts:47 | only a metadata `is_admin` that is exactly `true` counts |
| AuthUtils.DatabaseSaysAdmin | lib/auth/utils.ts:51-57 | the lookup answered without an error, with a row whose `is_admin` is truthy |
| AuthUtils.LookupExceptionEscapes | lib/auth/utils.ts:49-56 | for a session without the metadata flag, a throwing lookup makes the gate raise instead of redirecting |
| AuthUtils.MetadataAdminSkipsDatabase | lib/auth/utils.ts:47-49 | with `user_metadata.is_admin === true` the `users` table is not consulted and the session is admitted |
| AuthUtils.DatabaseDecidesWithoutMetadata | lib/auth/utils.ts:51-60 | otherwise a row with a true `is_admin` admits and anything else redirects to "/admin/unauthorized" |
| AuthUtils.AdminGateIgnoresBan | lib/auth/utils.ts:51-57 | changing only `is_banned` in the looked-up row never changes the gate's outcome |
| AuthUtils.BannedAdminIsAdmitted | lib/auth/utils.ts:57-62 | a banned row that says admin is admitted |
| AuthUtils.WithoutSession | lib/auth/utils.ts:73-76 | both token cookies are gone and every other cookie is untouched |
| AuthUtils.SignOut | lib/auth/utils.ts:65-80 | deletes both cookies whether or not the provider reports an error; a provider exception is swallowed before the deletion |
| AuthUtils.SignOutIdempotent | lib/auth/utils.ts:73-76 | signing out twice leaves the store as signing out once |
| AuthUtils.NoSessionAfterSignOut | lib/auth/utils.ts:12-14 | after sign-out no session is read back and `requireAuth` redirects to the login page |
| Cookies.CookieStore.Set | app/admin/login/actions.ts:66-80 | one entry is added or overwritten and no other changes |
| Cookies.CookieStore.Delete | lib/auth/utils.ts:75-76 | one entry is removed and no other changes |
| LoginActions.GetErrorMessage | app/admin/login/actions.ts:101-112 | the three phrases are tested in order by substring, each message returned exactly when its phrase is the first to match; the result is one of four fixed messages |
| LoginActions.FirstPhraseWins | app/admin/login/actions.ts:105-109 | a message holding both "Email not confirmed" and "Too many requests" is classified by the earlier test |
| LoginActions.Decide | app/admin/login/actions.ts:7-99 | the chain always starts with the password sign-in; an admitted login never signs out; the banned and non-admin branches end with a provider sign-out |
| LoginActions.ResultOf | app/admin/login/actions.ts:15-97 | success exactly for an admitted login, whose returned user is admin and carries the provider user's id |
| LoginActions.PersistSession | app/admin/login/actions.ts:63-80 | exactly the two token cookies are added, holding the session's tokens; the other cookies are unchanged |
| LoginActions.SignInWithPhone | app/admin/login/actions.ts:7-99 | returns the result of the decision chain, makes its calls, and writes the two cookies only when the login is admitted |
| LoginActions.ProviderErrorStopsAtOnce | app/admin/login/actions.ts:15-21 | a provider error is classified and nothing else is called |
| LoginActions.MissingSessionFails | app/admin/login/actions.ts:23-28 | a reply without a user or a session gives the fixed login failure without further calls |
| LoginActions.DatabaseErrorDoesNotSignOut | app/admin/login/actions.ts:37-43 | a database error fails without a provider sign-out |
| LoginActions.BanCheckedBeforeAdmin | app/admin/login/actions.ts:45-52 | a banned row is refused after a sign-out whatever its `is_admin` |
| LoginActions.NonAdminRefused | app/admin/login/actions.ts:54-61 | a row that is neither banned nor admin, or no row, is refused after a sign-out |
| LoginActions.SuccessIffAdminNotBanned | app/admin/login/actions.ts:15-91 | a login succeeds exactly when the provider returns a user and a session and the row has no error, is not banned and is admin |
| LoginActions.ExceptionsGiveUnexpected | app/admin/login/actions.ts:7-98 | the "unexpected error" failure comes exactly from a throwing sign-in, a throwing lookup after a clean sign-in, or a throwing provider sign-out in the banned or non-admin branch; no other failure carries that message |
| LoginActions.FailureMessagesAreFixed | app/admin/login/actions.ts:17-97 | every refusal carries one of nine fixed messages |
| LoginActions.PersistedSessionReadsBack | app/admin/login/actions.ts:66-80 | the cookies written are the ones `getSession` and the middleware read: the same tokens come back and the admin pages continue |
| LoginActions.PersistedCookieAttributes | app/admin/login/actions.ts:66-80 | access token for 604800 s and refresh token for 2592000 s, both HTTP-only, same-site lax, path "/" |
| CategoryForm.RemoveSpecialChars | app/admin/service-categories/components/category-form.tsx:36 | only word characters, whitespace and hyphens remain; a string of kept characters is returned unchanged |
| CategoryForm.RemoveSpecialCharsAppend | app/admin/service-categories/components/category-form.tsx:36 | filtering a concatenation is filtering each part and concatenating, so kept characters survive in their order |
| CategoryForm.RemoveSpecialCharsSingle | app/admin/service-categories/components/category-form.tsx:36 | one character is kept exactly when it is a word character, whitespace or a hyphen |
| CategoryForm.RemoveSpecialCharsKeepsOrder | app/admin/service-categories/components/category-form.tsx:36 | a dropped character between two kept ones, as in "a!b", leaves the two kept ones side by side in order |
| CategoryForm.SlugBeforeTrim | app/admin/service-categories/components/category-form.tsx:34-38 | the slug holds only `[a-z0-9_-]` and never two hyphens in a row |
| CategoryForm.GenerateSlug | app/admin/service-categories/components/category-form.tsx:33-40 | for ASCII names, only `[a-z0-9_-]`, no whitespace, no "--", and the final trim removes nothing |
| CategoryForm.SlugIsAscii | app/admin/service-categories/components/category-form.tsx:33-40 | every slug is ASCII again |
| CategoryForm.SlugIsFixedPoint | app/admin/service-categories/components/category-form.tsx:33-40 | any string of slug characters without "--" is its own slug |
| CategoryForm.GenerateSlugIdempotent | app/admin/service-categories/components/category-form.tsx:33-40 | generating the slug of a slug changes nothing |
| CategoryForm.LeadingSpaceBecomesHyphen | app/admin/service-categories/components/category-form.tsx:37-39 | a name starting with whitespace gives a slug starting with a hyphen |
| CategoryForm.SpacesAroundLetter | app/admin/service-categories/components/category-form.tsx:37 | a letter between two whitespace characters gets a hyphen on each side |
| CategoryForm.SpacedLetterKeepsHyphens | app/admin/service-categories/components/category-form.tsx:33-40 | a letter or digit between two whitespace characters, such as " a ", gives "-a-": the hyphens survive the final trim |
| Text.CollapseRunsNoTwoInARow | app/admin/service-categories/components/category-form.tsx:37-38 | after a run-collapsing replacement whose replacement is itself a run character, no two run characters stand side by side |
| Text.CollapseRunsIdentity | app/admin/service-categories/components/category-form.tsx:37-38 | a run-collapsing replacement leaves unchanged a string whose run characters are the replacement and stand alone |
| CategoryForm.InitialIconPreview | app/admin/service-categories/components/category-form.tsx:46-48 | a preview exactly when the icon is set, and then exactly the category bucket, a slash and the icon |
| CategoryForm.IconPreviewNamesIcon | app/admin/service-categories/components/category-form.tsx:46-48 | the preview starts with the bucket and a slash, and what follows is the stored icon |
| CategoryForm.ExistingIconField | app/admin/service-categories/components/category-form.tsx:113 | the `existing_icon` hidden field is emitted exactly when the icon is set, carrying it |
| CategoryForm.HiddenFieldIffInitialPreview | app/admin/service-categories/components/category-form.tsx:46-113 | the hidden field is present exactly when the form starts with a preview |
| CategoryForm.IconPreview.HandleIconChange | app/admin/service-categories/components/category-form.tsx:64-72 | a selection shows its first file; a cleared selection restores exactly the initial preview |
| Pagination.TotalPages | app/admin/components/pagination.tsx:17 | the page count is the ceiling of totalCount / itemsPerPage |
| Pagination.TotalPagesIsUnique | app/admin/components/pagination.tsx:17 | any number meeting the two ceiling bounds is the page count |
| Pagination.Rendered | app/admin/components/pagination.tsx:25 | the pager is rendered only for more than one page |
| Pagination.Disabled | app/admin/components/pagination.tsx:29-69 | first and previous are disabled on page 1, next and last on the last page |
| Pagination.GuardAgreesWithPageCount | app/admin/users/components/users-table.tsx:240 | `totalCount > itemsPerPage` holds exactly when the pager's own test (more than one page) renders it |
| Pagination.Target | app/admin/components/pagination.tsx:29-66 | an enabled button leads to another page, inside [1, totalPages] when the current page is |
| Pagination.PastTheEndExample | app/admin/components/pagination.tsx:55-56 | on a page past the end, "next" stays enabled and leads further out |
| Pagination.Get | app/admin/components/pagination.tsx:20-21 | no value exactly when the name is absent |
| Pagination.WithoutKey | app/admin/components/pagination.tsx:20-21 | removes every pair with the name and keeps the others |
| Pagination.SetParam | app/admin/components/pagination.tsx:21 | afterwards the name occurs once with the new value; the other pairs are unchanged; an absent name is appended |
| Pagination.SetParamIdempotent | app/admin/components/pagination.tsx:21 | setting the same value twice is setting it once |
| Pagination.SetParamKeepsOthers | app/admin/components/pagination.tsx:20-22 | every other parameter keeps its value and its count |
| Pagination.WithoutKeyKeepsOthers | app/admin/components/pagination.tsx:20-22 | removing a name keeps the value of every other |
| Pagination.SearchParams.Set | app/admin/components/pagination.tsx:21 | the parameters become `SetParam` of the old ones |
| Pagination.HandlePageChange | app/admin/components/pagination.tsx:19-23 | pushes the base path with "page" set once to the new page and all other parameters kept |
| Pagination.Serialize | app/admin/components/pagination.tsx:22 | the pairs as name=value, in order, joined by "&" |
| Pagination.Navigation.Href | app/admin/components/pagination.tsx:22 | the base path, "?", and the serialized query |
| CrudTable.WithoutId | app/admin/service-categories/components/categories-table.tsx:50 | drops exactly the rows with the id: the length falls by their count, no survivor has it, and without such rows nothing changes |
| CrudTable.WithoutIdAppend | app/admin/governorates/components/governorates-table.tsx:53 | filtering distributes over concatenation, so the surviving rows keep their order |
| CrudTable.WithoutIdSingle | app/admin/governorates/components/governorates-table.tsx:53 | one row survives exactly when its id differs |
| CrudTable.WithoutIdMembers | app/admin/service-categories/components/categories-table.tsx:50 | a row survives exactly when it was there and its id differs |
| CrudTable.WithoutIdIdempotent | app/admin/service-categories/components/categories-table.tsx:50 | deleting the same id twice is deleting it once |
| CrudTable.CountIdZero | app/admin/service-categories/components/categories-table.tsx:50 | a list without the id has no row to count |
| CrudTable.ListTable.HandleEdit | app/admin/service-categories/components/categories-table.tsx:31-34 | selects the row and opens the edit dialog |
| CrudTable.ListTable.HandleDeletePrompt | app/admin/governorates/components/governorates-table.tsx:39-42 | selects the row and opens the delete dialog |
| CrudTable.ListTable.SetDialogOpen | app/admin/service-categories/components/categories-table.tsx:143-160 | opens or closes one dialog and changes nothing else |
| CrudTable.ListTable.ConfirmDelete | app/admin/service-categories/components/categories-table.tsx:41-54 | no-op without a selection; after an answer the dialog is closed and the selection cleared; on success exactly the rows with the selected id go, the rest in order, and on failure the list is unchanged (governorates-table.tsx lines 44-58 follow the same rule) |
| CrudTable.ListTable.BoundUpdateId | app/admin/governorates/components/governorates-table.tsx:60 | the update action is bound to the selected id, or "" without a selection |
| CrudTable.ListTable.ShowsEmptyState | app/admin/service-categories/components/categories-table.tsx:123 | the "nothing to show" row appears exactly when the list is empty (governorates-table.tsx line 115 alike) |
| ConfirmationDialog.View | app/admin/users/components/confirmation-dialog.tsx:48-98 | the four outcomes in order: no auth link, already confirmed, phone kind without a phone, the form carrying `id` and `user_id`; exactly one occurs |
| ConfirmationDialog.ConfirmedAt | app/admin/users/components/confirmation-dialog.tsx:66 | the timestamp of the chosen kind: the email one for "email", the phone one for "phone" |
| ConfirmationDialog.DisplayedValue | app/admin/users/components/confirmation-dialog.tsx:63-65 | the value the form shows: the email for "email", the phone for "phone" |
| ConfirmationDialog.UnlinkedUserCannotConfirm | app/admin/users/components/confirmation-dialog.tsx:49-61 | without `user_id` the timestamps and the phone do not matter |
| ConfirmationDialog.AlreadyConfirmedBeforeNoPhone | app/admin/users/components/confirmation-dialog.tsx:68-93 | a confirmed phone is reported as such even without a phone number |
| ConfirmationDialog.PhoneFormShowsPhone | app/admin/users/components/confirmation-dialog.tsx:65-98 | a phone form always shows a phone |
| ConfirmationDialog.FiresOnSuccess | app/admin/users/components/confirmation-dialog.tsx:35-46 | `onSuccess` fires only for a non-empty message of a successful action |
| ConfirmationDialog.InitialStateFiresNothing | app/admin/users/components/confirmation-dialog.tsx:31 | the initial action state fires nothing |
| UsersTable.ConfirmationStatus | app/admin/users/components/users-table.tsx:97-120 | the four badges, each exactly under its condition; a missing phone counts as phone-confirmed |
| UsersTable.PhoneCountsConfirmed | app/admin/users/components/users-table.tsx:103 | a phone counts as confirmed when it has a confirmation time or there is no phone |
| UsersTable.UnlinkedIgnoresTimestamps | app/admin/users/components/users-table.tsx:98-100 | without `user_id` the badge is "not linked" whatever the timestamps |
| UsersTable.PhoneAloneIsUnconfirmed | app/admin/users/components/users-table.tsx:117-119 | a confirmed phone without a confirmed email is "unconfirmed" |
| UsersTable.EmailIcon | app/admin/users/components/users-table.tsx:166-171 | no icon without an auth link; otherwise a check mark exactly when the email is confirmed, else a cross |
| UsersTable.PhoneIcon | app/admin/users/components/users-table.tsx:177-182 | no icon without an auth link or a phone; otherwise a check mark exactly when the phone is confirmed, else a cross |
| UsersTable.CrossesMatchConfirmActions | app/admin/users/components/users-table.tsx:166-223 | a cross marks the email or the phone exactly when the row offers to confirm it |
| UsersTable.BadgeAgreesWithIcons | app/admin/users/components/users-table.tsx:97-183 | "confirmed" exactly when the email has a check mark and the phone no cross; "email only" exactly with a check mark and a phone cross; "unconfirmed" exactly with an email cross |
| UsersTable.StatusCellOf | app/admin/users/components/users-table.tsx:186 | the banned badge replaces the confirmation badge exactly when the user is banned |
| UsersTable.RowActions | app/admin/users/components/users-table.tsx:201-226 | edit and delete always; set-password exactly without `user_id`, set-role exactly with it; each confirmation under its condition |
| UsersTable.ExactlyOneAccountAction | app/admin/users/components/users-table.tsx:204-213 | every row offers exactly one of set-password and set-role |
| UsersTable.ConfirmEmailMatchesBadge | app/admin/users/components/users-table.tsx:214-218 | confirm-email is offered exactly on rows whose badge is "unconfirmed" |
| UsersTable.FullyConfirmedOffersNoConfirmation | app/admin/users/components/users-table.tsx:214-223 | a fully confirmed row offers neither confirmation |
| UsersTable.MountsContent | app/admin/users/components/users-table.tsx:249-327 | the dialogs mount their content only for a selected user, set-role and confirm-email only for a linked one, confirm-phone only for a linked one with a phone |
| UsersTable.OfferedConfirmationShowsForm | app/admin/users/components/users-table.tsx:214-327 | a row offering a confirmation gets a mounted dialog that shows the confirmation form |
| UsersTable.UsersScreen.OpenFor | app/admin/users/components/users-table.tsx:52-80 | selects the user and opens the matching dialog |
| UsersTable.UsersScreen.SetDialogOpen | app/admin/users/components/users-table.tsx:249-330 | opens or closes one dialog and keeps the selection |
| UsersTable.UsersScreen.ConfirmDelete | app/admin/users/components/users-table.tsx:82-95 | no-op without a selection or an id; otherwise asks to delete that id and, once answered, closes the dialog and clears the selection whatever the answer; the list is never edited |
| StatusDropdown.StatusLabel | app/admin/service-providers/components/status-dropdown.tsx:17-21 | every status has one of the three labels, never the updating notice |
| StatusDropdown.StatusColor | app/admin/service-providers/components/status-dropdown.tsx:23-27 | every status has one of the three colours |
| StatusDropdown.StatusValue | app/admin/service-providers/components/status-dropdown.tsx:84-101 | each select item carries the database spelling of its status |
| StatusDropdown.LabelsAndColoursDistinguish | app/admin/service-providers/components/status-dropdown.tsx:17-27 | no two statuses share a label or a colour |
| StatusDropdown.ParseStatus | lib/supabase/types.ts:128 | a parsed value is the spelling of the status it gives |
| StatusDropdown.ParseStatusValue | lib/supabase/types.ts:128 | every status reads back from its spelling |
| StatusDropdown.StatusPicker.DisplayedLabel | app/admin/service-providers/components/status-dropdown.tsx:80 | the updating notice exactly while updating, otherwise the status label |
| StatusDropdown.StatusPicker.SelectDisabled | app/admin/service-providers/components/status-dropdown.tsx:76 | the select takes no input while an update is in flight |
| StatusDropdown.StatusPicker.HandleStatusChange | app/admin/service-providers/components/status-dropdown.tsx:39-69 | choosing the shown status does nothing; otherwise the update is requested while updating, the status changes only on success, and updating is off afterwards in every outcome |
| ServiceProviderForm.UnderBucket | app/admin/service-providers/components/service-provider-form.tsx:54 | one URL per name, each the name under the bucket |
| ServiceProviderForm.InitialPreview | app/admin/service-providers/components/service-provider-form.tsx:51-57 | no preview exactly without a stored name; in single mode the name under the bucket; in multiple mode each ", "-separated part under the bucket |
| ServiceProviderForm.StripBucket | app/admin/service-providers/components/service-provider-form.tsx:54 | removes the bucket prefix that `UnderBucket` adds |
| ServiceProviderForm.MultiplePreviewRoundTrip | app/admin/service-providers/components/service-provider-form.tsx:54 | a multi-file preview has one URL per part, and stripping the prefix and joining with ", " gives the stored value back |
| ServiceProviderForm.FileInput.HandleFileChange | app/admin/service-providers/components/service-provider-form.tsx:59-77 | a selection shows all its files (multiple) or the first (single); a cleared selection restores exactly the initial preview |
| ServiceProviderForm.RenderedUrls | app/admin/service-providers/components/service-provider-form.tsx:80-81 | nothing for no preview or an empty one, else one URL per entry |
| ServiceProviderForm.IsImageUrl | app/admin/service-providers/components/service-provider-form.tsx:83 | a URL is an image when its lower-cased form ends in ".jpeg", ".jpg", ".gif" or ".png" |
| ServiceProviderForm.ImageTestIgnoresCase | app/admin/service-providers/components/service-provider-form.tsx:83 | the image test gives the same answer on the lower-cased URL |
| ServiceProviderForm.ImageExtensionInAnyCase | app/admin/service-providers/components/service-provider-form.tsx:83 | every URL ending in ".jpeg", ".jpg", ".gif" or ".png", in any mix of cases, is shown as an image |
| ServiceProviderForm.ImageTestAcceptsAnyCase | app/admin/service-providers/components/service-provider-form.tsx:83 | ".PNG" and ".Jpeg" URLs are shown as images |
| ServiceProviderForm.PdfIsNotImage | app/admin/service-providers/components/service-provider-form.tsx:83 | every URL ending in ".pdf", in any case, is shown as a link |
| ServiceProviderForm.ImageTestRejectsOthers | app/admin/service-providers/components/service-provider-form.tsx:83 | ".pdf" and ".png.PDF" URLs are shown as links, since only the end of the URL is tested |
| ServiceProviderForm.RenderPreview | app/admin/service-providers/components/service-provider-form.tsx:79-98 | one item per URL: an image exactly when the URL passes the extension test, otherwise a link numbered from 1 |
| ServiceProviderForm.HiddenFieldName | app/admin/service-providers/components/service-provider-form.tsx:116 | without "_file" the field is "existing_" + name; with it, five characters shorter |
| Text.ReplaceFirstAt | app/admin/service-providers/components/service-provider-form.tsx:116 | `replace` with a string pattern replaces the occurrence that has none before it and keeps the text around it |
| ServiceProviderForm.HiddenField | app/admin/service-providers/components/service-provider-form.tsx:115-117 | the hidden field is emitted exactly when a stored name is set, and carries it |
| ServiceProviderForm.HiddenFieldNameDropsMarker | app/admin/service-providers/components/service-provider-form.tsx:116 | for a name made of a stem, "_file" and a tail, where no "_file" starts inside the stem, the hidden field is "existing_" + stem + tail |
| ServiceProviderForm.HiddenFieldNamesOfTheForm | app/admin/service-providers/components/service-provider-form.tsx:258-289 | the five inputs give "existing_logo_image", "existing_id_card_front_image", "existing_id_card_back_image", "existing_certificates_imagess" and "existing_document_lists" |
| ServiceProviderForm.StatusSelect | app/admin/service-providers/components/service-provider-form.tsx:345-350 | the status select appears exactly when editing with initial data, and its default reads back as that provider's status |

## Left out

- Identity-provider and database internals (`signInWithPassword`, `auth.getUser`, `auth.signOut`, the `users` lookup): their behaviour is not visible here, so each is a parameter giving its answer or an exception.
- The storage bucket paths of `SupabasePaths`: lib/supabase/paths is not part of this model, so the bucket is a parameter.
- `process.env.NODE_ENV`: the cookies' `secure` flag is a parameter of the login.
- `cookies()` itself throwing, `console.error` logging, toasts, JSX markup, `next/image`, the users table's name, created-at and `user.phone || "-"` cells, and its admin badge (users-table.tsx lines 188-198), which shows `is_admin` and is not read by any rule modelled here.
- `URL.createObjectURL`: the browser's object URLs for the selected files are a parameter of the change handlers.
- `toLocaleDateString("ar-EG")`: the confirmation date is shown as stored.
- `Math.ceil` over floating-point division: the page count is integer ceiling division with `itemsPerPage > 0`.
- Percent-encoding of `URLSearchParams.toString()`: names and values are joined as they are.
- GenerateSlug: modelled for ASCII names only, because JavaScript's `\w` is ASCII while `toLowerCase` and `\s` reach beyond it.
- Lower: lower-cases ASCII letters only; the image-extension test depends on ASCII letters alone, so this does not change it.
- React scheduling: stale closures, batched state updates and two handlers running at once are not modelled; each handler runs to completion on the state it starts from.
- The badge mode (`showBadge`) of the status dropdown, which only shows the label and colour modelled by `StatusLabel` and `StatusColor`.
- The form effects that reset a form after a successful save and the submit buttons' pending text, which are markup around the action result.
