/** The server-backed user list: the ascending sort of fetched users by
    creation time, the edit dialog's validation schema (field rules plus the
    password refinement), the form reset when a user is opened for editing,
    and the sequence of update calls a submit issues. Calls are recorded,
    not performed; which call fails is a parameter. */
module UserList {
  import opened Wrappers
  import Seqs

  /** A user as the server returns it; `createdAt` is the creation time in
      milliseconds, as `new Date(created_at).getTime()` reads it. */
  datatype UserData = UserData(
    id: string,
    name: string,
    email: string,
    role: string,
    isAdmin: bool,
    activate: bool,
    createdAt: int)

  // ---------------------------------------------------------------------
  // Ordering the fetched list.

  predicate SortedByCreation(s: seq<UserData>)
  {
    forall i, j :: 0 <= i < j < |s| ==> s[i].createdAt <= s[j].createdAt
  }

  /** `u` placed before the first entry not created earlier than it. */
  function Insert(u: UserData, s: seq<UserData>): (r: seq<UserData>)
    ensures |r| == |s| + 1
    ensures multiset(r) == multiset(s) + multiset{u}
  {
    if |s| == 0 || u.createdAt <= s[0].createdAt then [u] + s
    else
      assert s == [s[0]] + s[1..];
      [s[0]] + Insert(u, s[1..])
  }

  /** Inserting keeps a lower bound every entry and `u` respect. */
  lemma {:induction false} InsertKeepsBound(u: UserData, s: seq<UserData>, lo: int)
    requires lo <= u.createdAt
    requires forall i :: 0 <= i < |s| ==> lo <= s[i].createdAt
    ensures forall i :: 0 <= i < |Insert(u, s)| ==> lo <= Insert(u, s)[i].createdAt
  {
    if |s| > 0 && u.createdAt > s[0].createdAt {
      InsertKeepsBound(u, s[1..], lo);
    }
  }

  lemma {:induction false} InsertKeepsSorted(u: UserData, s: seq<UserData>)
    requires SortedByCreation(s)
    ensures SortedByCreation(Insert(u, s))
  {
    if |s| > 0 && u.createdAt > s[0].createdAt {
      var tail := s[1..];
      assert SortedByCreation(tail) by {
        forall i, j | 0 <= i < j < |tail|
          ensures tail[i].createdAt <= tail[j].createdAt
        {
          assert tail[i] == s[i + 1] && tail[j] == s[j + 1];
        }
      }
      InsertKeepsSorted(u, tail);
      forall i | 0 <= i < |tail|
        ensures s[0].createdAt <= tail[i].createdAt
      {
        assert tail[i] == s[i + 1];
      }
      InsertKeepsBound(u, tail, s[0].createdAt);
      var rest := Insert(u, tail);
      var r := [s[0]] + rest;
      forall i, j | 0 <= i < j < |r|
        ensures r[i].createdAt <= r[j].createdAt
      {
        assert r[j] == rest[j - 1];
        if i > 0 {
          assert r[i] == rest[i - 1];
        }
      }
    }
  }

  /** The fetched users reordered from earliest to latest creation. Entries
      created at the same instant keep their fetched order, as the stable
      `Array.prototype.sort` keeps them. */
  function SortByCreation(s: seq<UserData>): (r: seq<UserData>)
    ensures |r| == |s|
    ensures multiset(r) == multiset(s)
  {
    if |s| == 0 then []
    else
      assert s == [s[0]] + s[1..];
      Insert(s[0], SortByCreation(s[1..]))
  }

  /** The result is ordered by creation time. */
  lemma {:induction false} SortByCreationSorted(s: seq<UserData>)
    ensures SortedByCreation(SortByCreation(s))
  {
    if |s| > 0 {
      SortByCreationSorted(s[1..]);
      InsertKeepsSorted(s[0], SortByCreation(s[1..]));
    }
  }

  /** The users created at time `t`, in their order in `s`. */
  function CreatedAt(s: seq<UserData>, t: int): seq<UserData>
  {
    if |s| == 0 then []
    else (if s[0].createdAt == t then [s[0]] else []) + CreatedAt(s[1..], t)
  }

  lemma {:induction false} InsertStable(u: UserData, s: seq<UserData>, t: int)
    ensures CreatedAt(Insert(u, s), t) == CreatedAt([u] + s, t)
  {
    assert ([u] + s)[1..] == s;
    if |s| > 0 && u.createdAt > s[0].createdAt {
      var rest := Insert(u, s[1..]);
      InsertStable(u, s[1..], t);
      assert ([s[0]] + rest)[1..] == rest;
      assert ([u] + s[1..])[1..] == s[1..];
      var first := if s[0].createdAt == t then [s[0]] else [];
      var mine := if u.createdAt == t then [u] else [];
      var kept := CreatedAt(s[1..], t);
      assert CreatedAt(Insert(u, s), t) == first + (mine + kept);
      assert CreatedAt([u] + s, t) == mine + (first + kept);
      // u and s[0] differ in creation time, so at most one of them is kept.
      PrependEither(first, mine, kept);
    }
  }

  lemma PrependEither<T>(a: seq<T>, b: seq<T>, c: seq<T>)
    requires a == [] || b == []
    ensures a + (b + c) == b + (a + c)
  {
    if a == [] {
      assert a + (b + c) == b + c == b + (a + c);
    } else {
      assert a + (b + c) == a + c == b + (a + c);
    }
  }

  /** Stability: for every creation time, the users created at that time
      appear in the result in the same order as in the fetched list. */
  lemma {:induction false} SortByCreationStable(s: seq<UserData>, t: int)
    ensures CreatedAt(SortByCreation(s), t) == CreatedAt(s, t)
  {
    if |s| > 0 {
      var rest := SortByCreation(s[1..]);
      SortByCreationStable(s[1..], t);
      InsertStable(s[0], rest, t);
      assert ([s[0]] + rest)[1..] == rest;
    }
  }

  /** A list already in creation order is returned unchanged. */
  lemma {:induction false} SortByCreationOfSorted(s: seq<UserData>)
    requires SortedByCreation(s)
    ensures SortByCreation(s) == s
  {
    if |s| > 0 {
      SortByCreationOfSorted(s[1..]);
      assert SortByCreation(s[1..]) == s[1..];
      assert s == [s[0]] + s[1..];
    }
  }

  // ---------------------------------------------------------------------
  // The edit dialog's schema.

  /** The organisational roles the edit form offers. */
  const EditRoles: seq<string> := ["CEO", "DIRECTOR", "VICE_DIRECTOR", "TEAM_LEADER", "SUPERVISOR", "SOCIAL_WORKER"]

  /** The option text shown for each role in the select. */
  function RoleOptionLabel(role: string): (shown: Option<string>)
    ensures shown.Some? <==> role in EditRoles
  {
    if role == "CEO" then Some("執行長")
    else if role == "DIRECTOR" then Some("主任")
    else if role == "VICE_DIRECTOR" then Some("副主任")
    else if role == "TEAM_LEADER" then Some("組長")
    else if role == "SUPERVISOR" then Some("督導 / 班導")
    else if role == "SOCIAL_WORKER" then Some("社工 / 教保")
    else None
  }

  /** The select offers exactly the roles the schema accepts, each under its
      own label. */
  lemma RoleOptionsMatchSchema(a: string, b: string)
    ensures RoleOptionLabel(a).Some? <==> a in EditRoles
    ensures RoleOptionLabel(a).Some? && RoleOptionLabel(a) == RoleOptionLabel(b) ==> a == b
  {
  }

  /** The edit form's values; the password fields are optional. */
  datatype EditForm = EditForm(
    name: string,
    email: string,
    role: string,
    isAdmin: bool,
    activate: bool,
    password: Option<string>,
    confirmPassword: Option<string>)

  /** The form's values before any user is opened. */
  const DefaultEditForm := EditForm("", "", "SOCIAL_WORKER", false, true, None, None)

  /** A password is "entered" when it is present and non-empty (JavaScript
      truthiness of a string). */
  predicate PasswordEntered(form: EditForm)
  {
    form.password.Some? && form.password.value != ""
  }

  /** The refinement: an entered password must equal the confirmation. */
  predicate PasswordsMatch(form: EditForm)
  {
    PasswordEntered(form) ==> form.confirmPassword == form.password
  }

  datatype Issue = NameRequired | InvalidEmail | RoleNotAllowed | PasswordMismatch

  /** The form field an issue is reported on. */
  function IssuePath(issue: Issue): string
  {
    match issue
    case NameRequired => "name"
    case InvalidEmail => "email"
    case RoleNotAllowed => "role"
    case PasswordMismatch => "confirmPassword"
  }

  /** The message shown under the field; the role's is the validation
      library's own and is not modelled. */
  function IssueMessage(issue: Issue): Option<string>
  {
    match issue
    case NameRequired => Some("請輸入姓名")
    case InvalidEmail => Some("請輸入有效的電子郵件")
    case RoleNotAllowed => None
    case PasswordMismatch => Some("密碼不匹配")
  }

  /** The schema's verdict on a form, as the list of issues in field order.
      Whether the e-mail address matches the library's pattern is given as
      `emailValid`. A name or e-mail failure still lets the refinement run;
      a role outside the enumeration aborts the object and the refinement
      is skipped. */
  function ValidateEdit(form: EditForm, emailValid: bool): (issues: seq<Issue>)
    ensures issues == [] <==> |form.name| > 0 && emailValid && form.role in EditRoles && PasswordsMatch(form)
    ensures NameRequired in issues <==> |form.name| == 0
    ensures InvalidEmail in issues <==> !emailValid
    ensures RoleNotAllowed in issues <==> form.role !in EditRoles
    ensures PasswordMismatch in issues <==> form.role in EditRoles && !PasswordsMatch(form)
    ensures |issues| <= 3
  {
    var fieldIssues :=
      (if |form.name| == 0 then [NameRequired] else [])
      + (if emailValid then [] else [InvalidEmail])
      + (if form.role in EditRoles then [] else [RoleNotAllowed]);
    if form.role !in EditRoles then fieldIssues
    else fieldIssues + (if PasswordsMatch(form) then [] else [PasswordMismatch])
  }

  /** Without an entered password the refinement accepts any confirmation. */
  lemma NoPasswordAnyConfirmation(form: EditForm, emailValid: bool, confirmation: Option<string>)
    requires !PasswordEntered(form)
    ensures PasswordMismatch !in ValidateEdit(form.(confirmPassword := confirmation), emailValid)
  {
  }

  /** With an entered password and an accepted role, the mismatch is
      reported exactly when the confirmation differs, on the confirmation
      field and with its own message. */
  lemma EnteredPasswordMustMatch(form: EditForm, emailValid: bool)
    requires PasswordEntered(form) && form.role in EditRoles
    ensures PasswordMismatch in ValidateEdit(form, emailValid) <==> form.confirmPassword != form.password
    ensures IssuePath(PasswordMismatch) == "confirmPassword" && IssueMessage(PasswordMismatch) == Some("密碼不匹配")
  {
  }

  /** The untouched default form is rejected for its empty name and e-mail
      and for nothing else. */
  lemma DefaultFormRejected()
    ensures ValidateEdit(DefaultEditForm, false) == [NameRequired, InvalidEmail]
  {
  }

  // ---------------------------------------------------------------------
  // Opening a user and submitting the dialog.

  /** The form as opened for `user`: its editable values, both password
      fields empty. */
  function ResetFormFor(user: UserData): (form: EditForm)
    ensures form.name == user.name && form.email == user.email && form.role == user.role
    ensures form.isAdmin == user.isAdmin && form.activate == user.activate
    ensures form.password == Some("") && form.confirmPassword == Some("")
    ensures !PasswordEntered(form)
  {
    EditForm(user.name, user.email, user.role, user.isAdmin, user.activate, Some(""), Some(""))
  }

  /** The effect run when the edited user changes: the form is reset for the
      new user, and left as it is when the dialog is closed. */
  function FormAfterEditingChange(editing: Option<UserData>, current: EditForm): (form: EditForm)
    ensures editing.None? ==> form == current
    ensures editing.Some? ==> form == ResetFormFor(editing.value)
  {
    match editing
    case None => current
    case Some(user) => ResetFormFor(user)
  }

  /** One request to the user service. */
  datatype ApiCall =
    | UpdateRole(id: string, role: string)
    | UpdateAdmin(id: string, isAdmin: bool)
    | UpdateActivate(id: string, activate: bool)
    | AdminUpdatePassword(id: string, newPassword: string)

  /** The requests a submit makes, in order: role, admin flag, activation,
      and the new password only when one was entered. Nothing is sent when
      no user is being edited. */
  function SubmitCalls(editing: Option<UserData>, data: EditForm): (calls: seq<ApiCall>)
    ensures editing.None? ==> calls == []
    ensures editing.Some? ==>
              var id := editing.value.id;
              && |calls| == (if PasswordEntered(data) then 4 else 3)
              && calls[0] == UpdateRole(id, data.role)
              && calls[1] == UpdateAdmin(id, data.isAdmin)
              && calls[2] == UpdateActivate(id, data.activate)
              && (PasswordEntered(data) ==> calls[3] == AdminUpdatePassword(id, data.password.value))
    ensures forall i :: 0 <= i < |calls| ==> !calls[i].AdminUpdatePassword? || PasswordEntered(data)
  {
    match editing
    case None => []
    case Some(user) =>
      var basic := [UpdateRole(user.id, data.role), UpdateAdmin(user.id, data.isAdmin), UpdateActivate(user.id, data.activate)];
      if PasswordEntered(data) then basic + [AdminUpdatePassword(user.id, data.password.value)] else basic
  }

  /** What a submit leaves behind: the requests actually sent, the user
      still being edited, the notice shown, and whether the list is fetched
      again. */
  datatype SubmitOutcome = SubmitOutcome(
    issued: seq<ApiCall>,
    editingAfter: Option<UserData>,
    notice: Option<string>,
    refetch: bool)

  /** `handleSubmit`: the requests are awaited one by one; `failAt` names
      the request that is rejected, if any. A rejection stops the sequence
      there, keeps the dialog open and reports the failure; otherwise the
      dialog closes and the list is fetched again. */
  function HandleSubmit(editing: Option<UserData>, data: EditForm, failAt: Option<nat>): (out: SubmitOutcome)
    ensures editing.None? ==> out == SubmitOutcome([], None, None, false)
    ensures editing.Some? ==>
              var calls := SubmitCalls(editing, data);
              if failAt.Some? && failAt.value < |calls| then
                && out.issued == calls[..failAt.value + 1]
                && out.editingAfter == editing
                && out.notice == Some("更新用戶資料失敗")
                && !out.refetch
              else
                && out.issued == calls
                && out.editingAfter.None?
                && out.notice == Some("用戶資料已更新")
                && out.refetch
    ensures Seqs.IsSubsequence(out.issued, SubmitCalls(editing, data))
  {
    var calls := SubmitCalls(editing, data);
    if editing.None? then SubmitOutcome([], None, None, false)
    else if failAt.Some? && failAt.value < |calls| then
      PrefixIsSubsequence(calls, failAt.value + 1);
      SubmitOutcome(calls[..failAt.value + 1], editing, Some("更新用戶資料失敗"), false)
    else
      PrefixIsSubsequence(calls, |calls|);
      assert calls[..|calls|] == calls;
      SubmitOutcome(calls, None, Some("用戶資料已更新"), true)
  }

  lemma {:induction false} PrefixIsSubsequence<T>(s: seq<T>, n: nat)
    requires n <= |s|
    ensures Seqs.IsSubsequence(s[..n], s)
  {
    if n > 0 {
      PrefixIsSubsequence(s[1..], n - 1);
      assert s[..n][1..] == s[1..][..n - 1];
    }
  }

  /** Opening a user and submitting the untouched form re-sends the user's
      own role, admin flag and activation, and never a password. */
  lemma ResubmitUnchanged(user: UserData)
    ensures SubmitCalls(Some(user), ResetFormFor(user))
         == [UpdateRole(user.id, user.role), UpdateAdmin(user.id, user.isAdmin), UpdateActivate(user.id, user.activate)]
  {
  }

  /** A user with a name and an accepted role opens into a form the schema
      accepts whenever the e-mail address is valid. */
  lemma ResetFormValidates(user: UserData)
    requires |user.name| > 0 && user.role in EditRoles
    ensures ValidateEdit(ResetFormFor(user), true) == []
  {
  }
}
