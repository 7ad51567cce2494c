/**
 * The admin-only user table: a case-insensitive search over email and
 * role, and deleting a user (after the confirmation dialog). Rows whose
 * role is "Admin" have their delete button disabled.
 */
module UserManagement {
  import opened Wrappers
  import opened Sequences
  import opened Text
  import opened Auth

  datatype ManagedUser = ManagedUser(id: string, email: string, role: string, joinDate: string, status: string)

  const DemoUsers: seq<ManagedUser> := [
    ManagedUser("1", "admin@gmail.com", "Admin", "2025-01-15", "Active"),
    ManagedUser("2", "john@example.com", "User", "2025-11-10", "Active"),
    ManagedUser("3", "sarah@example.com", "User", "2025-11-18", "Active"),
    ManagedUser("4", "mike@example.com", "User", "2025-11-20", "Inactive")
  ]

  /** The role shown with a shield and a disabled delete button. Note the capital A: this is the table's role text, not the session role. */
  const AdminRoleLabel: string := "Admin"

  /** The lower-cased query occurs in the lower-cased email or in the lower-cased role. */
  predicate UserMatches(u: ManagedUser, query: string)
  {
    Includes(Lower(u.email), Lower(query)) || Includes(Lower(u.role), Lower(query))
  }

  function UserMatcher(query: string): ManagedUser -> bool
  {
    (u: ManagedUser) => UserMatches(u, query)
  }

  function IdIsNot(id: string): ManagedUser -> bool
  {
    (u: ManagedUser) => u.id != id
  }

  /** `filteredUsers`: the matching users, in table order. */
  function FilteredUsers(users: seq<ManagedUser>, query: string): (r: seq<ManagedUser>)
    ensures IsSubsequence(r, users)
    ensures forall u :: multiset(r)[u] == if UserMatches(u, query) then multiset(users)[u] else 0
    ensures forall u :: u in r <==> u in users && UserMatches(u, query)
  {
    Filter(users, UserMatcher(query))
  }

  /** `handleDeleteUser(id)`; `confirmed` is the answer to the confirmation dialog. */
  function HandleDeleteUser(users: seq<ManagedUser>, id: string, confirmed: bool): (r: seq<ManagedUser>)
    ensures !confirmed ==> r == users
    ensures IsSubsequence(r, users)
    ensures confirmed ==> forall u :: multiset(r)[u] == if u.id != id then multiset(users)[u] else 0
    ensures confirmed ==> forall u :: u in r <==> u in users && u.id != id
  {
    if confirmed then Filter(users, IdIsNot(id))
    else
      SubsequenceOfItself(users);
      users
  }

  /**
   * The delete button of a row is enabled unless the row's role text is
   * exactly "Admin": the test is case-sensitive, so a row whose role reads
   * "admin" keeps its button.
   */
  function DeleteEnabled(u: ManagedUser): (b: bool)
    ensures !b <==> u.role == "Admin"
    ensures u.role == "admin" ==> b
  {
    u.role != AdminRoleLabel
  }

  /** Clicking a row's delete button: a disabled button does nothing. */
  function ClickDelete(users: seq<ManagedUser>, row: ManagedUser, confirmed: bool): (r: seq<ManagedUser>)
    ensures !DeleteEnabled(row) || !confirmed ==> r == users
    ensures IsSubsequence(r, users)
    ensures DeleteEnabled(row) && confirmed ==> forall u :: multiset(r)[u] == if u.id != row.id then multiset(users)[u] else 0
    ensures DeleteEnabled(row) && confirmed ==> forall u :: u in r <==> u in users && u.id != row.id
  {
    if DeleteEnabled(row) then HandleDeleteUser(users, row.id, confirmed)
    else
      SubsequenceOfItself(users);
      users
  }

  /** The page renders its table only for a signed-in admin session; otherwise it renders nothing. */
  function RenderedRows(session: Option<AuthUser>, users: seq<ManagedUser>, query: string): (r: Option<seq<ManagedUser>>)
    ensures r.Some? <==> session.Some? && session.value.role == Admin
    ensures r.Some? ==> IsSubsequence(r.value, users)
    ensures r.Some? ==> forall u :: multiset(r.value)[u] == if UserMatches(u, query) then multiset(users)[u] else 0
    ensures r.Some? ==> forall u :: u in r.value <==> u in users && UserMatches(u, query)
  {
    if session.None? || session.value.role != Admin then None
    else Some(FilteredUsers(users, query))
  }

  /** The empty query lists every user in order. */
  lemma EmptyQueryListsAll(users: seq<ManagedUser>)
    ensures FilteredUsers(users, "") == users
  {
    forall u | u in users
      ensures UserMatcher("")(u)
    {
      assert Lower(u.email)[..0] == Lower("");
    }
    FilterKeepsAll(users, UserMatcher(""));
  }

  /** Queries that differ only in letter case list the same users. */
  lemma QueryIgnoresCase(users: seq<ManagedUser>, q1: string, q2: string)
    requires SameIgnoringCase(q1, q2)
    ensures FilteredUsers(users, q1) == FilteredUsers(users, q2)
  {
    LowerIgnoresCase(q1, q2);
    FilterAgreeingPredicates(users, UserMatcher(q1), UserMatcher(q2));
  }

  /** "ADMIN" finds the users whose role is "Admin". */
  lemma UpperCaseQueryFindsAdmins(u: ManagedUser)
    requires u.role == AdminRoleLabel
    ensures UserMatches(u, "ADMIN")
  {
    assert Lower("ADMIN") == "admin";
    assert Lower(u.role) == "admin";
  }

  /** After a confirmed delete, no listed user has the deleted id, whatever the query. */
  lemma DeletedUserNeverListed(users: seq<ManagedUser>, id: string, query: string)
    ensures forall u :: u in FilteredUsers(HandleDeleteUser(users, id, true), query) ==> u.id != id
  {
  }

  /** With unique ids, no click on a row's delete button ever removes an "Admin" user. */
  lemma AdminsSurviveDeletes(users: seq<ManagedUser>, row: ManagedUser, confirmed: bool)
    requires forall i, j :: 0 <= i < j < |users| ==> users[i].id != users[j].id
    requires row in users
    ensures forall u :: u in users && u.role == AdminRoleLabel ==> u in ClickDelete(users, row, confirmed)
  {
    forall u | u in users && u.role == AdminRoleLabel
      ensures u in ClickDelete(users, row, confirmed)
    {
      if DeleteEnabled(row) && confirmed {
        var i :| 0 <= i < |users| && users[i] == u;
        var j :| 0 <= j < |users| && users[j] == row;
        assert i != j;
      }
    }
  }

  /** In the demo table the admin row survives every click on every row's delete button. */
  lemma DemoAdminSurvives(row: ManagedUser, confirmed: bool)
    requires row in DemoUsers
    ensures DemoUsers[0] in ClickDelete(DemoUsers, row, confirmed)
  {
    AdminsSurviveDeletes(DemoUsers, row, confirmed);
  }
}
