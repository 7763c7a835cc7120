# GuardTree dashboard logic in Dafny

This project models the client-side logic of the GuardTree case-management dashboard:

- **Form-template builder.** A template is a list of sections, each a list of fields. The model covers building sections from the question catalog and every editing action on sections, fields and options. It also covers the check run before a template is saved.
- **Assessment-form catalog.** Each user is shown only the forms their role or job title allows.
- **Case detail panel.** Age from a birth date, the category multi-select, the read-only texts, and the inline editor's initial state.
- **Activity feed.** The relative-time texts and the colour of each activity's dot.
- **Local user page.** Add, update, delete and status toggle of users.
- **Server-backed user list.** The creation-time sort, the edit schema with its password refinement, the form reset, and the sequence of update requests a submit sends.

Every operation is a pure function over immutable datatypes. Its contract states what the result means, and the editing operations are related to a partner:

- a round trip (add then remove, move up then down, duplicate then delete);
- an invariant (only the addressed section or field changes; the sort is a stable permutation);
- or an independent reference (the decimal value of a rendered number, the first-match index of `findIndex`).

The display texts are stated as complete tables or layouts instead. The gender text is also checked against the editor's radio labels, and the category line against the multi-select's button text.

Modules:

| file | module | what it holds |
|---|---|---|
| `wrappers.dfy` | `Wrappers` | `Option` and `Result` |
| `seqs.dfy` | `Seqs` | order-preserving `filter` and its laws |
| `text.dfy` | `Text` | `trim`, `${n}`, `join`, first-occurrence `replace` |
| `form_builder.dfy` | `FormBuilder` | sections, fields, options, the catalog mapping, the save check |
| `form_permissions.dfy` | `FormPermissions` | the form catalog and the role/job-title filter |
| `case_detail.dfy` | `CaseDetail` | age, category toggle, display texts, editor state |
| `recent_activity.dfy` | `RecentActivity` | elapsed-time buckets and labels, activity colours |
| `users_page.dfy` | `UsersPage` | the local user list's handlers |
| `user_list.dfy` | `UserList` | sort, edit schema, form reset, submit sequence |

Conventions:

- A field's `label` property is called `caption` in the model, because `label` is a Dafny keyword.
- An absent optional property (`undefined`) is `None`.
- Fresh ids (`Math.random`), the clock (`Date.now`, `new Date()`), the catalog's contents and the outcome of each server request are parameters.

## Model

| member | source | states |
|---|---|---|
| `Text.Trim` | src/components/forms/FormBuilder.tsx:295 | The trimmed text neither starts nor ends with whitespace (the ECMAScript set). It is empty exactly when the input is all whitespace, which is what `!s.trim()` tests. |
| `Text.TrimIsInfix` | src/components/forms/FormBuilder.tsx:295 | The trimmed text is the stretch of the input left once whitespace is cut from both ends. Everything before it and after it is whitespace. |
| `Text.IntToString` | src/components/dashboard/RecentActivity.tsx:28 | `${n}` has a leading minus sign exactly for negative numbers. The digits read back to the number's absolute value. |
| `Text.NatToString` | src/components/forms/FormBuilder.tsx:80 | `${n}` gives at least one digit, only digits, and no leading zero. |
| `Text.DecimalValueOfNatToString` | src/components/forms/FormBuilder.tsx:56 | Reading the rendered numeral back gives the number: rendering loses nothing. |
| `Text.NatToStringInjective` | src/components/forms/FormBuilder.tsx:56 | Distinct indices render as distinct numerals. |
| `Text.Join` | src/components/forms/FormBuilder.tsx:57 | `join` of no parts is "" and of one part is that part. Otherwise part i occupies the text from its offset (the lengths of the parts before it, each plus one separator), exactly one separator fills each gap, and the length is the parts' total plus the separators, so the text is determined. |
| `Text.IndexOf` | src/components/forms/FormBuilder.tsx:54 | The first position where the pattern occurs, or -1 exactly when it occurs nowhere. |
| `Text.ReplaceFirst` | src/components/forms/FormBuilder.tsx:54 | `replace` with a string pattern substitutes the first occurrence, wherever it is: the text before it, then the replacement, then the text after it. Without an occurrence the input is returned unchanged. |
| `Seqs.FilterMembers` | src/components/forms/FormBuilder.tsx:142 | `filter` keeps exactly the elements that satisfy the predicate. |
| `Seqs.FilterIsSubsequence` | src/components/forms/FormBuilder.tsx:142 | `filter` keeps the relative order of what it keeps. |
| `Seqs.FilterKeepsMultiplicity` | src/components/forms/FormBuilder.tsx:142 | A kept value occurs in the result as often as in the input. |
| `Seqs.FilterKeepsMultiplicities` | src/components/forms/FormBuilder.tsx:142 | The same for every kept value at once: `filter` drops no duplicate of a value it keeps. |
| `Seqs.FilterIdempotent` | src/components/forms/FormBuilder.tsx:142 | Filtering twice by the same predicate equals filtering once. |
| `FormBuilder.QuestionLabel` | src/components/forms/FormBuilder.tsx:57 | A catalog question's label is the non-empty ones among activity, item and sub-item, in that order, joined with " - ", for all eight presence patterns. A missing sub-item counts as empty. Two-part and three-part labels are also spelled out. |
| `FormBuilder.SectionTitle` | src/components/forms/FormBuilder.tsx:54 | The first "form_" in the key is removed, wherever it occurs, and " 項" is appended. A key without "form_" is kept whole. |
| `FormBuilder.MapFormJsonToSections` | src/components/forms/FormBuilder.tsx:51-62 | There is one section per catalog key, in order, with the key as id and the key's section title. It holds one field per question, with id `key-idx` and the question label as caption. Each field is an optional checkbox with no options and no placeholder. |
| `FormBuilder.MappedFieldIdsDistinct` | src/components/forms/FormBuilder.tsx:55-56 | No two fields of a mapped section share an id. |
| `FormBuilder.CatalogFieldIdInjective` | src/components/forms/FormBuilder.tsx:56 | A catalog field id `key-idx` determines the question index. |
| `FormBuilder.FieldIndex` | src/components/forms/FormBuilder.tsx:158-160 | `findIndex` returns the first position with the id, and -1 exactly when no field has it. |
| `FormBuilder.AddSection` | src/components/forms/FormBuilder.tsx:75-84 | Appends one empty section titled "區段 n+1", with id "section_" followed by the clock reading. The existing sections stay as a prefix. |
| `FormBuilder.UpdateSectionTitle` | src/components/forms/FormBuilder.tsx:86-92 | Only the addressed sections get the new title. No id, field or other title changes. |
| `FormBuilder.LastTitleWins` | src/components/forms/FormBuilder.tsx:86-92 | Retitling twice equals retitling once with the later title. |
| `FormBuilder.RemoveSection` | src/components/forms/FormBuilder.tsx:212-218 | Removal is refused exactly when only one section exists. Otherwise every section with the id is dropped. Every other section stays as often as it occurred, in order. |
| `FormBuilder.RemoveSectionKeepsOne` | src/components/forms/FormBuilder.tsx:212-218 | With distinct section ids, a permitted removal never leaves zero sections. |
| `FormBuilder.AddThenRemoveSection` | src/components/forms/FormBuilder.tsx:212-218 | Removing a just-added section by its unused id restores the sections. |
| `FormBuilder.AddField` | src/components/forms/FormBuilder.tsx:94-114 | Appends to the addressed section an optional text field captioned "欄位 n+1" under the fresh id, with no options and no placeholder. The section keeps its id and title, and every other section is unchanged. |
| `FormBuilder.RemoveWithin` | src/components/forms/FormBuilder.tsx:142 | No field with the id remains. Every other field stays as often as it occurred, in order. Without such a field the list is unchanged. |
| `FormBuilder.RemoveField` | src/components/forms/FormBuilder.tsx:136-148 | The field is removed from the addressed sections only. Ids and titles are kept. |
| `FormBuilder.AddThenRemoveField` | src/components/forms/FormBuilder.tsx:136-148 | Removing a just-added field by its fresh id restores every section. |
| `FormBuilder.ApplyPatch` | src/components/forms/FormBuilder.tsx:127 | Each of the six properties takes the value the partial record sets, and keeps its old value when the record does not set it. An empty record leaves the field as it is. |
| `FormBuilder.ApplyPatchIdempotent` | src/components/forms/FormBuilder.tsx:127 | Merging the same partial record twice equals merging it once. |
| `FormBuilder.TypeChange` | src/components/forms/FormBuilder.tsx:643-652 | The type selector sets the new type and keeps id, caption, required and placeholder. A choice type keeps the options, including an empty list, or defaults them to ["選項 1"]. Any other type clears them. |
| `FormBuilder.UpdateField` | src/components/forms/FormBuilder.tsx:116-134 | Only fields with the id, inside sections with the id, are merged with the update. Every section keeps its id, title and number of fields, and everything else is unchanged. |
| `FormBuilder.Reinsert` | src/components/forms/FormBuilder.tsx:168-171 | Taking an element out and re-inserting it at a neighbouring position exchanges the two elements. |
| `FormBuilder.MoveAt` | src/components/forms/FormBuilder.tsx:161-171 | At the top (moving up) or bottom (moving down) nothing moves. Otherwise the element trades places with its neighbour, and the result is a permutation. |
| `FormBuilder.MoveWithin` | src/components/forms/FormBuilder.tsx:158-176 | The field found by `findIndex` moves one place, or stays at the edge. The field list is a permutation of the old one. |
| `FormBuilder.MoveField` | src/components/forms/FormBuilder.tsx:150-181 | Only the addressed section's fields are reordered, as a permutation. Other sections are unchanged. |
| `FormBuilder.MoveUpThenDown` | src/components/forms/FormBuilder.tsx:150-181 | Moving a field up and then down restores the order. |
| `FormBuilder.MoveAtUpThenDown` | src/components/forms/FormBuilder.tsx:161-171 | At the level of positions, moving up then down is the identity. |
| `FormBuilder.DuplicateWithin` | src/components/forms/FormBuilder.tsx:186-205 | The copy goes right after the first field with the id, and nothing else moves. The copy has the fresh id and the caption plus " (複製)"; every other attribute is equal. Without such a field nothing changes. |
| `FormBuilder.DuplicateField` | src/components/forms/FormBuilder.tsx:183-210 | Only the addressed sections grow, by exactly one field when the id is present. |
| `FormBuilder.DuplicateThenRemove` | src/components/forms/FormBuilder.tsx:183-210 | Deleting the copy by its fresh id restores the fields. |
| `FormBuilder.AppendOption` | src/components/forms/FormBuilder.tsx:228-231 | Appends "選項 k+1" after the k existing options; an absent list counts as empty. No other attribute changes. |
| `FormBuilder.SetOption` | src/components/forms/FormBuilder.tsx:255-258 | A field with options gets option i replaced and no other option touched. An index one past the end appends. A field without options is untouched. |
| `FormBuilder.SetOptionIdempotent` | src/components/forms/FormBuilder.tsx:255-258 | Writing an option's own text back changes nothing. Writing the same text twice equals writing it once. |
| `FormBuilder.DropOption` | src/components/forms/FormBuilder.tsx:280-283 | `splice(i, 1)` closes the gap at i and keeps the options before and after it. An index past the end removes nothing. |
| `FormBuilder.AppendThenDropOption` | src/components/forms/FormBuilder.tsx:228-283 | Removing the option just added restores the option list. |
| `FormBuilder.AddOption` | src/components/forms/FormBuilder.tsx:220-241 | Only the addressed field in the addressed section gains an option. Every section keeps its id, title and number of fields. |
| `FormBuilder.UpdateOption` | src/components/forms/FormBuilder.tsx:243-267 | Only the addressed field in the addressed section has an option rewritten. Every section keeps its id, title and number of fields. |
| `FormBuilder.RemoveOption` | src/components/forms/FormBuilder.tsx:269-292 | Only the addressed field in the addressed section loses an option. Every section keeps its id, title and number of fields. |
| `FormBuilder.FieldProblems` | src/components/forms/FormBuilder.tsx:311-319 | A field reports no problem exactly when its caption is not blank and, for a choice type, it has at least one option. The blank-caption toast is raised exactly for a blank caption. The missing-options toast, naming the caption, is raised exactly for a choice field without options. When both are raised, the caption toast comes first. |
| `FormBuilder.FieldsProblems` | src/components/forms/FormBuilder.tsx:310-320 | A section's field pass reports nothing exactly when every field is complete. |
| `FormBuilder.SectionsProblems` | src/components/forms/FormBuilder.tsx:309-321 | The nested pass reports nothing exactly when every field of every section is complete. |
| `FormBuilder.FirstEmptySection` | src/components/forms/FormBuilder.tsx:301-303 | Gives the first section without fields, or -1 exactly when every section has fields. |
| `FormBuilder.ValidateTemplate` | src/components/forms/FormBuilder.tsx:294-323 | Saving succeeds exactly when the name is not blank, every section has a field and every field is complete. A blank name is reported first. Then the title of the first empty section is reported. Otherwise an invalid template reports exactly the problems of the nested field pass, and there is at least one. |
| `FormBuilder.CatalogSectionsNeedOptions` | src/components/forms/FormBuilder.tsx:315-319 | Sections mapped from a catalog with any question cannot be saved as they are: their checkboxes have no options. |
| `FormPermissions.UseFormPermissions` | src/components/forms/FormPermissions.tsx:29-38 | A form is offered exactly when the role or the job title is allowed, in catalog order. |
| `FormPermissions.PermissionsShape` | src/components/forms/FormPermissions.tsx:12-38 | Over the two-form catalog the result is one of four lists: each form is present exactly when permitted, in catalog order. |
| `FormPermissions.PermittedIdsDistinct` | src/components/forms/FormPermissions.tsx:12-27 | No form is offered twice. |
| `FormPermissions.AdminSeesAllForms` | src/components/forms/FormPermissions.tsx:17-24 | The "admin" role gets the whole catalog, whatever the job title. |
| `FormPermissions.SocialWorkerSeesChecklist` | src/components/forms/FormPermissions.tsx:14-18 | A non-admin "社工" gets only the basic ability checklist. |
| `FormPermissions.CaregiverSeesDailyLife` | src/components/forms/FormPermissions.tsx:21-25 | A non-admin "教保員" gets only version B of the daily-life assessment. |
| `FormPermissions.NoMatchSeesNothing` | src/components/forms/FormPermissions.tsx:34-38 | A role and job title that no form names get nothing. |
| `CaseDetail.CalculateAge` | src/components/cases/CaseDetailPanel.tsx:113-122 | The age is the difference of the years, less one while this year's birthday is still ahead. |
| `CaseDetail.AgeOnBirthday` | src/components/cases/CaseDetailPanel.tsx:117-120 | On the birthday itself the new year of age counts. |
| `CaseDetail.AgeNonNegative` | src/components/cases/CaseDetailPanel.tsx:113-122 | Anyone born on or before today has a non-negative age. |
| `CaseDetail.AgeMonotone` | src/components/cases/CaseDetailPanel.tsx:113-122 | The age never decreases as today advances. |
| `CaseDetail.AgeExample` | src/components/cases/CaseDetailPanel.tsx:113-122 | Someone born 15 June 2015 is 9 on 14 June 2025 and 10 on 15 June 2025. |
| `CaseDetail.ToggleCategory` | src/components/cases/CaseDetailPanel.tsx:18-24 | Only the ticked category flips membership. A selected one is removed everywhere, and every other category stays as often as it occurred, in order. An unselected one is appended. |
| `CaseDetail.ToggleKeepsOfferedCategories` | src/components/cases/CaseDetailPanel.tsx:15-24 | Ticking offered categories only ever selects offered categories, and never selects the same one twice. |
| `CaseDetail.ToggleTwiceRestores` | src/components/cases/CaseDetailPanel.tsx:18-24 | Ticking an unselected category twice restores the selection. |
| `CaseDetail.SelectButtonLabel` | src/components/cases/CaseDetailPanel.tsx:30 | The multi-select shows the prompt when nothing is selected, and otherwise the same text as the read-only category line. |
| `CaseDetail.GenderLabel` | src/components/cases/CaseDetailPanel.tsx:225 | "男" exactly for "male", "女" exactly for "female", and "其他" for anything else. |
| `CaseDetail.GenderChoicesMatchView` | src/components/cases/CaseDetailPanel.tsx:214-225 | The read-only view shows each radio choice's stored value with the same text the editor shows beside that choice, and the two choices read differently. |
| `CaseDetail.TypesLabel` | src/components/cases/CaseDetailPanel.tsx:239 | "無" for no categories. Otherwise the categories in order, each at its offset, with exactly ", " between neighbours, at a length of their total plus two per separator. |
| `CaseDetail.DescriptionLabel` | src/components/cases/CaseDetailPanel.tsx:255 | An empty or null description shows "無備註"; any other is shown as is. |
| `CaseDetail.InitialEdit` | src/components/cases/CaseDetailPanel.tsx:66-72 | The editor starts with an empty name and description, dated today. It reads as male, aged 0, with no categories ("無") and the select prompt showing. |
| `CaseDetail.NoCaseKeepsInitialEdit` | src/components/cases/CaseDetailPanel.tsx:66-85 | Until a case arrives, the editor keeps its initial state. |
| `CaseDetail.EditStateFor` | src/components/cases/CaseDetailPanel.tsx:75-85 | A loaded case is copied into the editor, with a null description becoming "". Without a case the editor keeps its state. |
| `CaseDetail.EditStateMatchesView` | src/components/cases/CaseDetailPanel.tsx:82 | The editor opens empty exactly where the view shows "無備註", and otherwise with the text the view shows. |
| `RecentActivity.DiffInSeconds` | src/components/dashboard/RecentActivity.tsx:25 | The whole seconds elapsed, rounded towards negative infinity. |
| `RecentActivity.Classify` | src/components/dashboard/RecentActivity.tsx:27-42 | Each wording is chosen exactly on its threshold interval. Negative differences fall in seconds. The count is the floor quotient: 1..59 minutes, 1..23 hours, 1..6 days. |
| `RecentActivity.ClassifyMonotone` | src/components/dashboard/RecentActivity.tsx:27-42 | An older activity never gets a finer wording, or a smaller count in the same wording. |
| `RecentActivity.FormatDate` | src/components/dashboard/RecentActivity.tsx:22-43 | Stated on the elapsed milliseconds. Under a minute the text is the floor of the seconds plus "秒前". Under an hour it is whole minutes plus "分鐘前", under a day whole hours plus "小時前", and under a week whole days plus "天前". From a week on it is the absolute date. |
| `RecentActivity.FormatDateExamples` | src/components/dashboard/RecentActivity.tsx:27-42 | 30 s, 90 s, 2 h, 3 days and 7 days ago read "30秒前", "1分鐘前", "2小時前", "3天前" and the absolute date. |
| `RecentActivity.RelativeLabelInjective` | src/components/dashboard/RecentActivity.tsx:27-34 | Within a week, equal texts mean the same wording and count. |
| `RecentActivity.ActivityTone` | src/components/dashboard/RecentActivity.tsx:45-78 | Blue exactly for form_created, green for form_submitted and amber for case_updated. Gray for anything else. |
| `RecentActivity.Label` | src/components/dashboard/RecentActivity.tsx:27-41 | Each relative wording is its count followed by its own unit word (seconds, minutes, hours, days). From a week on, the text is the absolute date. |
| `RecentActivity.UnknownKindLooksLikeSystem` | src/components/dashboard/RecentActivity.tsx:65-77 | An unknown kind gets the same dot as a system event. |
| `UsersPage.RoleLabelInjective` | src/pages/Users.tsx:38-43 | The four role labels are pairwise distinct. |
| `UsersPage.RoleLabel` | src/pages/Users.tsx:38-43 | Looking the label up in the table gives back the role, so no label stands for two roles. |
| `UsersPage.StatusText` | src/pages/Users.tsx:132 | The notice says "啟用" exactly when the user is being activated and "停用" exactly when being deactivated. |
| `UsersPage.Flip` | src/pages/Users.tsx:131 | The new status always differs from the clicked one. |
| `UsersPage.HandleAddUser` | src/pages/Users.tsx:94-109 | Appends an active user with no last login, built from the draft under the fresh id. The draft resets to empty with the caregiver role. |
| `UsersPage.HandleUpdateUser` | src/pages/Users.tsx:111-122 | Without an edited user nothing changes. Otherwise every entry with its id is replaced by it, and the length is kept. |
| `UsersPage.UpdateIdempotent` | src/pages/Users.tsx:114-118 | Saving the same edit twice equals saving it once. |
| `UsersPage.UpdateKeepsIds` | src/pages/Users.tsx:114-118 | An update keeps every position's id. |
| `UsersPage.HandleDeleteUser` | src/pages/Users.tsx:124-128 | Exactly the entries with the id are removed. Every other entry stays as often as it occurred, in order. |
| `UsersPage.AddThenDelete` | src/pages/Users.tsx:124-125 | Deleting a just-added user with a fresh id restores the list. |
| `UsersPage.DeleteIdempotent` | src/pages/Users.tsx:125 | Deleting twice equals deleting once. |
| `UsersPage.HandleToggleStatus` | src/pages/Users.tsx:130-140 | Entries with the id get the opposite of the clicked row's status, and nothing else changes. The notice names the action and the user. |
| `UsersPage.ToggleTwiceRestores` | src/pages/Users.tsx:130-138 | Toggling again on the refreshed row restores the list. |
| `UsersPage.ToggleStaleRowTwice` | src/pages/Users.tsx:131-137 | A second toggle from the same, stale row changes nothing. |
| `UsersPage.ToggleSeedExample` | src/pages/Users.tsx:72-80 | Reactivating the seeded inactive specialist changes only that row and reads "已啟用使用者 張專員". |
| `UserList.SortByCreation` | src/components/users/UserList.tsx:90-92 | The fetched list is reordered into a permutation of itself. |
| `UserList.SortByCreationSorted` | src/components/users/UserList.tsx:89-92 | The result is ordered from earliest to latest creation. |
| `UserList.SortByCreationStable` | src/components/users/UserList.tsx:90-92 | Users created at the same instant keep their fetched order. |
| `UserList.SortByCreationOfSorted` | src/components/users/UserList.tsx:90-92 | A list already in creation order comes back unchanged. |
| `UserList.RoleOptionLabel` | src/components/users/UserList.tsx:277-282 | A role has an option label exactly when it is one of the six roles the schema accepts. |
| `UserList.RoleOptionsMatchSchema` | src/components/users/UserList.tsx:277-282 | The role select offers exactly the roles the schema accepts, each under a label of its own. |
| `UserList.ValidateEdit` | src/components/users/UserList.tsx:44-61 | The form passes exactly when the name is non-empty, the e-mail is valid, the role is enumerated and the password refinement holds. Each issue appears exactly when its rule fails. A role outside the enumeration suppresses the refinement. |
| `UserList.NoPasswordAnyConfirmation` | src/components/users/UserList.tsx:52-57 | Without an entered password any confirmation passes the refinement. |
| `UserList.EnteredPasswordMustMatch` | src/components/users/UserList.tsx:52-61 | An entered password fails exactly when the confirmation differs. The failure is reported on `confirmPassword` with "密碼不匹配". |
| `UserList.DefaultFormRejected` | src/components/users/UserList.tsx:75-84 | The untouched default form fails for its empty name and e-mail only. |
| `UserList.ResetFormFor` | src/components/users/UserList.tsx:110-121 | Opening a user loads its name, e-mail, role and both flags, with both password fields empty. |
| `UserList.FormAfterEditingChange` | src/components/users/UserList.tsx:110-122 | The form is reset when a user is opened and left alone when the dialog closes. |
| `UserList.ResetFormValidates` | src/components/users/UserList.tsx:110-121 | A user with a name and an enumerated role opens into a form that passes, given a valid e-mail. |
| `UserList.SubmitCalls` | src/components/users/UserList.tsx:137-159 | The requests are role, admin flag and activation, in that order, then a password update only when a password was entered. Without an edited user nothing is sent. |
| `UserList.HandleSubmit` | src/components/users/UserList.tsx:137-168 | A rejected request stops the sequence after it, keeps the dialog open and reports failure. Otherwise the dialog closes, success is reported and the list is fetched again. |
| `UserList.ResubmitUnchanged` | src/components/users/UserList.tsx:141-159 | Submitting an untouched form re-sends the user's own values and never a password. |

## Left out

- HTTP and session: the axios client, token handling, redirects and local storage are not part of this model (src/lib/api.ts, src/contexts/UserContext.tsx). Server requests appear only as the recorded `UserList.ApiCall` values, and a request's failure is the `failAt` parameter.
- Randomness and the clock: `Math.random` ids and `Date.now`/`new Date()` are parameters, and ids are assumed fresh where a lemma needs it.
- Locale formatting: `Intl.DateTimeFormat` (the feed's absolute dates) and `toISOString` are library behaviour. The absolute text is a parameter of `RecentActivity.FormatDate`.
- RecentActivity.FormatDate: takes the activity's time as an integer number of milliseconds. For an unparsable date string the source computes NaN, every bucket test fails, and `Intl.DateTimeFormat(...).format` throws a RangeError. The model has no such input and does not model that path.
- Time zones: dates are calendar triples or millisecond counts as the `Date` getters return them.
- `new Date(s).getTime()` on an unparsable string gives NaN, which makes the sort comparator inconsistent. The model takes creation times as integers.
- The bundled question catalog (`form.json`) is an input sequence of entries. Its key order stands in for `Object.entries` order.
- zod's e-mail pattern is a boolean input of `UserList.ValidateEdit`. The role issue's message is the library's default text and is not modelled.
- Toasts, `navigate`, `console` and `window.confirm` are side effects and are left out, except the notices that the handlers compute (status toggle, submit outcome).
- Rendering: JSX layout, dialogs' open state, loading flags and the presentation-only pages are not modelled.
- `FormBuilder.MoveField`: requires the field id to be present in every addressed section, as it is for the arrow buttons of a rendered field. For an id that is absent, `findIndex` gives -1. The source then splices from the end: it moves the last field, and in an empty section moving up inserts `undefined`. That path is not modelled.
- `FormBuilder.MoveWithin`: same requirement as `FormBuilder.MoveField`.
- `FormBuilder.SetOption`: for an index more than one past the end, JavaScript leaves holes (`undefined` entries) in the array. The model leaves the options unchanged there, since a sequence of strings has no holes. Negative indices cannot occur in the model (`nat`).
- `FormBuilder.AddField`: one fresh id serves every addressed section. The source calls `generateId()` once per matching section, so the two differ only when section ids repeat, which the builder never creates.
- `FormBuilder.DuplicateField`: same as `FormBuilder.AddField`. The copy gets one fresh id in every addressed section.
- `FormBuilder.DropOption`: negative indices (which `splice` counts from the end) cannot occur in the model (`nat`).
- `FormBuilder.ValidateTemplate`: the saved template's random id and creation timestamp, the console log and the navigation after saving are left out. Each per-field toast is modelled as one `FieldProblem` value.
- `UserList.HandleSubmit`: only which request fails is modelled, not the error's contents. The reload after success is a flag.
- `UsersPage.HandleAddUser`: the draft's password is collected but never stored, as in the page.
