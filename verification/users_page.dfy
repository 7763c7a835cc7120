/** The user-management page: a local list of users edited through add,
    update, delete and status-toggle handlers. The generated id of a new
    user (a random base-36 string) is a parameter. */
module UsersPage {
  import opened Wrappers
  import Seqs

  datatype UserRole = Admin | Caregiver | SocialWorker | Specialist

  /** Reading a label back: the role it names, if any. */
  function RoleNamed(text: string): Option<UserRole>
  {
    if text == "管理員" then Some(Admin)
    else if text == "教保員" then Some(Caregiver)
    else if text == "社工" then Some(SocialWorker)
    else if text == "專業評估人員" then Some(Specialist)
    else None
  }

  /** The Chinese label shown for each role; reading it back gives the role. */
  function RoleLabel(role: UserRole): (text: string)
    ensures RoleNamed(text) == Some(role)
  {
    match role
    case Admin => "管理員"
    case Caregiver => "教保員"
    case SocialWorker => "社工"
    case Specialist => "專業評估人員"
  }

  /** No two roles share a label, so the label identifies the role. */
  lemma RoleLabelInjective(a: UserRole, b: UserRole)
    requires RoleLabel(a) == RoleLabel(b)
    ensures a == b
  {
  }

  datatype Status = Active | Inactive

  function Flip(status: Status): (r: Status)
    ensures r != status
  {
    if status == Active then Inactive else Active
  }

  datatype User = User(
    id: string,
    name: string,
    email: string,
    role: UserRole,
    status: Status,
    lastLogin: Option<string>)

  /** The add dialog's fields. The password is collected but never stored. */
  datatype NewUserDraft = NewUserDraft(name: string, email: string, role: UserRole, password: string)

  /** The add dialog's initial and post-submit state. */
  const EmptyDraft := NewUserDraft("", "", Caregiver, "")

  /** The user list with every entry whose id is `id` rewritten by `f`, all
      others kept in place. */
  function MapById(users: seq<User>, id: string, f: User -> User): (r: seq<User>)
    ensures |r| == |users|
    ensures forall i :: 0 <= i < |users| ==> r[i] == (if users[i].id == id then f(users[i]) else users[i])
  {
    seq(|users|, (i: int) requires 0 <= i < |users| => if users[i].id == id then f(users[i]) else users[i])
  }

  /** Adding appends an active user that has never logged in, built from the
      draft, and resets the draft. */
  function HandleAddUser(users: seq<User>, draft: NewUserDraft, freshId: string): (r: (seq<User>, NewUserDraft))
    ensures |r.0| == |users| + 1 && r.0[..|users|] == users
    ensures var u := r.0[|users|];
            && u.id == freshId && u.name == draft.name && u.email == draft.email && u.role == draft.role
            && u.status == Active && u.lastLogin.None?
    ensures r.1 == EmptyDraft
  {
    var created := User(freshId, draft.name, draft.email, draft.role, Active, None);
    assert (users + [created])[..|users|] == users;
    (users + [created], EmptyDraft)
  }

  /** Saving the edit dialog: without a user being edited nothing changes;
      otherwise every entry with the edited user's id is replaced by it. */
  function HandleUpdateUser(users: seq<User>, editing: Option<User>): (r: seq<User>)
    ensures |r| == |users|
    ensures editing.None? ==> r == users
    ensures editing.Some? ==>
              forall i :: 0 <= i < |users| ==>
                r[i] == (if users[i].id == editing.value.id then editing.value else users[i])
  {
    match editing
    case None => users
    case Some(e) => MapById(users, e.id, (_: User) => e)
  }

  /** Saving the same edit twice is the same as saving it once. */
  lemma UpdateIdempotent(users: seq<User>, editing: Option<User>)
    ensures HandleUpdateUser(HandleUpdateUser(users, editing), editing) == HandleUpdateUser(users, editing)
  {
  }

  /** Updating keeps the list's ids, position by position. */
  lemma UpdateKeepsIds(users: seq<User>, editing: Option<User>)
    ensures var r := HandleUpdateUser(users, editing);
            forall i :: 0 <= i < |users| ==> r[i].id == users[i].id
  {
  }

  function OtherUser(id: string): User -> bool
  {
    (u: User) => u.id != id
  }

  /** Deleting removes every entry with the user's id and keeps the rest in
      order. */
  function HandleDeleteUser(users: seq<User>, user: User): (r: seq<User>)
    ensures forall u :: u in r ==> u in users && u.id != user.id
    ensures forall u :: u in users && u.id != user.id ==> u in r
    ensures Seqs.IsSubsequence(r, users)
    ensures forall u: User :: u.id != user.id ==> multiset(r)[u] == multiset(users)[u]
  {
    Seqs.FilterIsSubsequence(users, OtherUser(user.id));
    Seqs.FilterMembers(users, OtherUser(user.id));
    Seqs.FilterKeepsMultiplicities(users, OtherUser(user.id));
    Seqs.Filter(users, OtherUser(user.id))
  }

  /** Deleting a user just added under a fresh id restores the list. */
  lemma AddThenDelete(users: seq<User>, draft: NewUserDraft, freshId: string)
    requires forall i :: 0 <= i < |users| ==> users[i].id != freshId
    ensures var (added, _) := HandleAddUser(users, draft, freshId);
            HandleDeleteUser(added, added[|users|]) == users
  {
    var (added, _) := HandleAddUser(users, draft, freshId);
    var created := added[|users|];
    assert added == users + [created] + [];
    Seqs.FilterSkipsOne(users, created, [], OtherUser(freshId));
    assert users + [] == users;
  }

  /** Deleting the same user twice is the same as deleting it once. */
  lemma DeleteIdempotent(users: seq<User>, user: User)
    ensures HandleDeleteUser(HandleDeleteUser(users, user), user) == HandleDeleteUser(users, user)
  {
    Seqs.FilterIdempotent(users, OtherUser(user.id));
  }

  /** The verb the toggle notice uses for the status being set. */
  function StatusText(status: Status): (text: string)
    ensures text == "啟用" <==> status == Active
    ensures text == "停用" <==> status == Inactive
  {
    assert "啟用"[0] != "停用"[0];
    match status
    case Active => "啟用"
    case Inactive => "停用"
  }

  /** Toggling a user's status: every entry with the clicked user's id gets
      the opposite of the clicked row's status, nothing else changes; the
      confirmation names the action and the user. */
  function HandleToggleStatus(users: seq<User>, user: User): (r: (seq<User>, string))
    ensures |r.0| == |users|
    ensures forall i :: 0 <= i < |users| ==>
              if users[i].id == user.id then r.0[i] == users[i].(status := Flip(user.status))
              else r.0[i] == users[i]
    ensures r.1 == "已" + StatusText(Flip(user.status)) + "使用者 " + user.name
  {
    var newStatus := Flip(user.status);
    (MapById(users, user.id, (u: User) => u.(status := newStatus)), "已" + StatusText(newStatus) + "使用者 " + user.name)
  }

  /** Clicking the toggle twice, the second time on the refreshed row,
      restores the list, provided the clicked row showed the current status
      of every entry with its id. */
  lemma ToggleTwiceRestores(users: seq<User>, user: User)
    requires forall i :: 0 <= i < |users| && users[i].id == user.id ==> users[i].status == user.status
    ensures var once := HandleToggleStatus(users, user).0;
            HandleToggleStatus(once, user.(status := Flip(user.status))).0 == users
  {
    var once := HandleToggleStatus(users, user).0;
    var twice := HandleToggleStatus(once, user.(status := Flip(user.status))).0;
    forall i | 0 <= i < |users|
      ensures twice[i] == users[i]
    {
    }
  }

  /** Clicking twice with the same, stale row sets the same status twice:
      the second click changes nothing. */
  lemma ToggleStaleRowTwice(users: seq<User>, user: User)
    ensures var once := HandleToggleStatus(users, user).0;
            HandleToggleStatus(once, user).0 == once
  {
    var once := HandleToggleStatus(users, user).0;
    var twice := HandleToggleStatus(once, user).0;
    forall i | 0 <= i < |users|
      ensures twice[i] == once[i]
    {
    }
  }

  /** The list's initial contents. */
  const SeedUsers: seq<User> := [
    User("1", "陳主任", "admin@example.com", Admin, Active, Some("2025-05-01T09:30:00")),
    User("2", "王教師", "teacher1@example.com", Caregiver, Active, Some("2025-04-28T14:45:00")),
    User("3", "李社工", "social1@example.com", SocialWorker, Active, Some("2025-04-30T11:20:00")),
    User("4", "張專員", "specialist1@example.com", Specialist, Inactive, None)
  ]

  /** Reactivating the seeded, inactive specialist changes only that row
      and announces it by name. */
  lemma ToggleSeedExample()
    ensures HandleToggleStatus(SeedUsers, SeedUsers[3]).0[3].status == Active
    ensures HandleToggleStatus(SeedUsers, SeedUsers[3]).1 == "已啟用使用者 張專員"
    ensures HandleToggleStatus(SeedUsers, SeedUsers[3]).0[..3] == SeedUsers[..3]
  {
  }
}
