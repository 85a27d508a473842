/** The two record shapes the client reads from the backend: a user's
    profile and a note's metadata row, with the uploader's profile
    optionally embedded. */
module Records {
  import opened Common
  import opened Text

  datatype Role = Student | Faculty | Admin

  /** The role as it is stored and compared: 'student' | 'faculty' | 'admin'. */
  function RoleName(r: Role): (name: string)
    ensures |name| > 0 && forall i :: 0 <= i < |name| ==> 'a' <= name[i] <= 'z'
  {
    match r
    case Student => "student"
    case Faculty => "faculty"
    case Admin => "admin"
  }

  /** Distinct roles have distinct stored names, so comparing names is
      comparing roles. */
  lemma RoleNameInjective(a: Role, b: Role)
    ensures RoleName(a) == RoleName(b) <==> a == b
  {
  }

  datatype Profile = Profile(
    id: string,
    email: string,
    name: string,
    mobile_number: Option<string>,
    department: string,
    role: Role,
    subjects: Option<string>,
    created_at: string,
    updated_at: string)

  datatype Note = Note(
    id: string,
    title: string,
    file_url: string,
    file_name: string,
    department: string,
    subject: string,
    faculty_id: string,
    created_at: string,
    updated_at: string,
    profiles: Option<Profile>)

  /** `note.profiles?.name`: the uploader's name when it was embedded. */
  function FacultyName(n: Note): (name: Option<string>)
    ensures name.Some? <==> n.profiles.Some?
    ensures name.Some? ==> name.value == n.profiles.value.name
  {
    match n.profiles
    case Some(p) => Some(p.name)
    case None => None
  }

  /** `note.profiles?.name?.toLowerCase().includes(t.toLowerCase())`,
      read as a condition: false when no uploader name was embedded. */
  predicate FacultyNameMatches(n: Note, t: string)
    ensures FacultyNameMatches(n, t) <==> n.profiles.Some? && ContainsIgnoringCase(n.profiles.value.name, t)
  {
    match FacultyName(n)
    case Some(name) => ContainsIgnoringCase(name, t)
    case None => false
  }
}
