/** The route guard: what a guarded route shows for a given session. */
module ProtectedRoute {
  import opened Common
  import opened Records

  /** The signed-in account of the session (the auth provider's user). */
  datatype User = User(id: string)

  /** The four things the guard can do. */
  datatype Decision = ShowSpinner | ToLogin | ToNotes | RenderChildren

  /** `ProtectedRoute`: a spinner while the session loads, then the login
      page without a user, then the Notes page when a required role is not
      the profile's, else the protected content. */
  function Decide(loading: bool, user: Option<User>, profile: Option<Profile>, role: Option<Role>): (d: Decision)
    ensures d == ShowSpinner <==> loading
    ensures d == ToLogin <==> !loading && user.None?
    ensures d == ToNotes <==>
      !loading && user.Some? && role.Some? && (profile.None? || profile.value.role != role.value)
    ensures d == RenderChildren <==>
      !loading && user.Some? && (role.None? || (profile.Some? && profile.value.role == role.value))
  {
    if loading then ShowSpinner
    else if user.None? then ToLogin
    else if role.Some? && (profile.None? || profile.value.role != role.value) then ToNotes
    else RenderChildren
  }

  /** Without a required role a signed-in user gets the content even
      before (or without) a profile. */
  lemma NoRoleNeedsNoProfile(user: User, role: Option<Role>)
    requires role.None?
    ensures Decide(false, Some(user), None, role) == RenderChildren
  {
  }
}
