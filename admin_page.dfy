/** The Admin page: every user and every note, a shared search box, a role
    dropdown and a department filter over the two tabs, the role counts on
    the dashboard, and deletion of a user or a note. */
module AdminPage {
  import opened Common
  import opened Text
  import opened Lists
  import opened Records

  /** The filter a user must pass to be listed (the callback of `filteredUsers`). */
  predicate UserMatches(u: Profile, search: string, role: string, department: string)
    ensures search == "" && role == "" && department == "" ==> UserMatches(u, search, role, department)
    ensures UserMatches(u, search, role, department) && role != "" ==> RoleName(u.role) == role
  {
    EmptyOccursEverywhere(Lower(u.name));
    && (ContainsIgnoringCase(u.name, search) || ContainsIgnoringCase(u.email, search)
        || ContainsIgnoringCase(u.department, search))
    && (role == "" || RoleName(u.role) == role)
    && (department == "" || ContainsIgnoringCase(u.department, department))
  }

  /** `filteredUsers`: the users passing the filter, in their original order. */
  function FilteredUsers(users: seq<Profile>, search: string, role: string, department: string): (r: seq<Profile>)
    ensures IsSubsequence(r, users)
    ensures forall u :: u in r <==> u in users && UserMatches(u, search, role, department)
    ensures forall u :: multiset(r)[u] == if UserMatches(u, search, role, department) then multiset(users)[u] else 0
  {
    FilterCounts(users, (u: Profile) => UserMatches(u, search, role, department));
    Filter(users, (u: Profile) => UserMatches(u, search, role, department))
  }

  /** The filter a note must pass on the notes tab. The role dropdown plays
      no part, and the search also looks at the subject. */
  predicate AdminNoteMatches(n: Note, search: string, department: string)
    ensures search == "" && department == "" ==> AdminNoteMatches(n, search, department)
    ensures ContainsIgnoringCase(n.subject, search) && department == "" ==> AdminNoteMatches(n, search, department)
  {
    EmptyOccursEverywhere(Lower(n.title));
    && (ContainsIgnoringCase(n.title, search) || ContainsIgnoringCase(n.subject, search)
        || FacultyNameMatches(n, search))
    && (department == "" || ContainsIgnoringCase(n.department, department))
  }

  /** The notes tab's `filteredNotes`, in the original order. */
  function FilteredNotes(notes: seq<Note>, search: string, department: string): (r: seq<Note>)
    ensures IsSubsequence(r, notes)
    ensures forall n :: n in r <==> n in notes && AdminNoteMatches(n, search, department)
    ensures forall n :: multiset(r)[n] == if AdminNoteMatches(n, search, department) then multiset(notes)[n] else 0
  {
    FilterCounts(notes, (n: Note) => AdminNoteMatches(n, search, department));
    Filter(notes, (n: Note) => AdminNoteMatches(n, search, department))
  }

  /** With every filter empty, both tabs list everything. */
  lemma NoFilterListsAll(users: seq<Profile>, notes: seq<Note>)
    ensures FilteredUsers(users, "", "", "") == users
    ensures FilteredNotes(notes, "", "") == notes
  {
    forall u | u in users ensures UserMatches(u, "", "", "") {
      EmptyOccursEverywhere(Lower(u.name));
    }
    forall n | n in notes ensures AdminNoteMatches(n, "", "") {
      EmptyOccursEverywhere(Lower(n.title));
    }
  }

  /** Choosing a role in the dropdown lists exactly the users of that role. */
  lemma RoleFilterIsExact(users: seq<Profile>, r: Role)
    ensures forall u :: u in FilteredUsers(users, "", RoleName(r), "") <==> u in users && u.role == r
  {
    forall u | u in users ensures UserMatches(u, "", RoleName(r), "") <==> u.role == r {
      EmptyOccursEverywhere(Lower(u.name));
      RoleNameInjective(u.role, r);
    }
  }

  /** The role comparison is exact, not case-insensitive: a role spelled
      with a capital letter matches no one. */
  lemma RoleFilterIsCaseSensitive(users: seq<Profile>, search: string, department: string)
    ensures FilteredUsers(users, search, "Admin", department) == []
  {
    forall r: Role ensures RoleName(r) != "Admin" {
      match r
      case Student => assert RoleName(r)[0] == 's';
      case Faculty => assert RoleName(r)[0] == 'f';
      case Admin => assert RoleName(r)[0] == 'a';
    }
  }

  /** On the notes tab a note whose subject contains the search term is
      listed when no department is chosen, unlike on the Notes page. */
  lemma NotesTabSearchesSubject(n: Note, notes: seq<Note>, search: string)
    requires n in notes && ContainsIgnoringCase(n.subject, search)
    ensures n in FilteredNotes(notes, search, "")
  {
  }

  /** The number of users with a given role, counted entry by entry. */
  function UsersWithRole(users: seq<Profile>, role: Role): nat {
    if users == [] then 0 else (if users[0].role == role then 1 else 0) + UsersWithRole(users[1..], role)
  }

  /** Filtering by role keeps one entry per user with that role. */
  lemma {:induction false} RoleFilterLength(users: seq<Profile>, role: Role)
    ensures |Filter(users, (u: Profile) => u.role == role)| == UsersWithRole(users, role)
    decreases |users|
  {
    if users != [] {
      RoleFilterLength(users[1..], role);
    }
  }

  /** `users.filter(u => u.role === role).length`: the number of users with that role. */
  function RoleCount(users: seq<Profile>, role: Role): (k: nat)
    ensures k == UsersWithRole(users, role)
    ensures k <= |users|
  {
    RoleFilterLength(users, role);
    |Filter(users, (u: Profile) => u.role == role)|
  }

  /** Every user has exactly one of the three roles, so the three counts
      add up to the total. */
  lemma {:induction false} RoleCountsPartitionUsers(users: seq<Profile>)
    ensures RoleCount(users, Student) + RoleCount(users, Faculty) + RoleCount(users, Admin) == |users|
    decreases |users|
  {
    if users != [] {
      RoleCountsPartitionUsers(users[1..]);
    }
  }

  /** The Students and Faculty cards never add up to more than Total Users. */
  lemma StudentsAndFacultyWithinTotal(users: seq<Profile>)
    ensures RoleCount(users, Student) + RoleCount(users, Faculty) <= |users|
  {
    RoleCountsPartitionUsers(users);
  }

  /** The number of entries carrying a given id. */
  function CountUserId(users: seq<Profile>, id: string): nat {
    if users == [] then 0 else (if users[0].id == id then 1 else 0) + CountUserId(users[1..], id)
  }

  function CountNoteId(notes: seq<Note>, id: string): nat {
    if notes == [] then 0 else (if notes[0].id == id then 1 else 0) + CountNoteId(notes[1..], id)
  }

  /** `users.filter(user => user.id !== userId)`: the list after a delete. */
  function WithoutUser(users: seq<Profile>, id: string): (r: seq<Profile>)
    ensures IsSubsequence(r, users)
    ensures forall u :: u in r <==> u in users && u.id != id
    ensures (forall u :: u in users ==> u.id != id) ==> r == users
  {
    Filter(users, (u: Profile) => u.id != id)
  }

  /** Exactly the entries with that id go: the list shrinks by their number. */
  lemma {:induction false} WithoutUserRemovesExactly(users: seq<Profile>, id: string)
    ensures |WithoutUser(users, id)| == |users| - CountUserId(users, id)
    decreases |users|
  {
    if users != [] {
      WithoutUserRemovesExactly(users[1..], id);
    }
  }

  /** `notes.filter(note => note.id !== noteId)`: the list after a delete. */
  function WithoutNote(notes: seq<Note>, id: string): (r: seq<Note>)
    ensures IsSubsequence(r, notes)
    ensures forall n :: n in r <==> n in notes && n.id != id
    ensures (forall n :: n in notes ==> n.id != id) ==> r == notes
  {
    Filter(notes, (n: Note) => n.id != id)
  }

  lemma {:induction false} WithoutNoteRemovesExactly(notes: seq<Note>, id: string)
    ensures |WithoutNote(notes, id)| == |notes| - CountNoteId(notes, id)
    decreases |notes|
  {
    if notes != [] {
      WithoutNoteRemovesExactly(notes[1..], id);
    }
  }

  /** What the page shows before the lists: a refusal for a non-admin
      (even one who got past the route guard) and a spinner while loading. */
  datatype View = AccessDenied | Spinner | Dashboard

  function AdminView(profile: Option<Profile>, loading: bool): (v: View)
    ensures v == Dashboard <==> profile.Some? && profile.value.role == Admin && !loading
    ensures v == AccessDenied <==> profile.None? || profile.value.role != Admin
  {
    if profile.None? || profile.value.role != Admin then AccessDenied
    else if loading then Spinner
    else Dashboard
  }

  /** The state of the Admin page component. */
  class Admin {
    var users: seq<Profile>
    var notes: seq<Note>
    var loading: bool

    constructor ()
      ensures users == [] && notes == [] && loading
    {
      users := [];
      notes := [];
      loading := true;
    }

    /** `fetchUsers`: the reply's rows replace the list; an error keeps it. */
    method FetchUsers(reply: Query<Profile>)
      modifies this
      ensures users == (if reply.Rows? then reply.RowsOrEmpty() else old(users))
      ensures notes == old(notes) && loading == old(loading)
    {
      if reply.Rows? {
        users := reply.RowsOrEmpty();
      }
    }

    /** `fetchNotes`: as for users, and loading ends either way. */
    method FetchNotes(reply: Query<Note>)
      modifies this
      ensures notes == (if reply.Rows? then reply.RowsOrEmpty() else old(notes))
      ensures users == old(users) && !loading
    {
      if reply.Rows? {
        notes := reply.RowsOrEmpty();
      }
      loading := false;
    }

    /** The effect run when the profile changes: both lists are fetched
        for an admin only. */
    method OnProfile(profile: Option<Profile>, usersReply: Query<Profile>, notesReply: Query<Note>)
      modifies this
      ensures profile.Some? && profile.value.role == Admin ==>
        && users == (if usersReply.Rows? then usersReply.RowsOrEmpty() else old(users))
        && notes == (if notesReply.Rows? then notesReply.RowsOrEmpty() else old(notes))
        && !loading
      ensures !(profile.Some? && profile.value.role == Admin) ==>
        users == old(users) && notes == old(notes) && loading == old(loading)
    {
      if profile.Some? && profile.value.role == Admin {
        FetchUsers(usersReply);
        FetchNotes(notesReply);
      }
    }

    /** `deleteUser`: declined or failed, the list is untouched; after a
        successful delete the local list drops that id. */
    method DeleteUser(userId: string, confirmed: bool, reply: Outcome)
      modifies this
      ensures users == (if confirmed && reply.Ok? then WithoutUser(old(users), userId) else old(users))
      ensures notes == old(notes) && loading == old(loading)
    {
      if !confirmed {
        return;
      }
      if reply.Err? {
        return;
      }
      users := WithoutUser(users, userId);
    }

    /** `deleteNote`: the same for the notes list. */
    method DeleteNote(noteId: string, confirmed: bool, reply: Outcome)
      modifies this
      ensures notes == (if confirmed && reply.Ok? then WithoutNote(old(notes), noteId) else old(notes))
      ensures users == old(users) && loading == old(loading)
    {
      if !confirmed {
        return;
      }
      if reply.Err? {
        return;
      }
      notes := WithoutNote(notes, noteId);
    }
  }
}
