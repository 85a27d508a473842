/** The Profile page: a form over the editable fields of the signed-in
    user's profile, with an edit/cancel toggle and a save that sends the
    form as a partial update. */
module ProfilePage {
  import opened Common
  import opened Text
  import opened Records

  /** `formData`, which is also the update payload: the four editable
      fields and nothing else; email and role have no place in it. */
  datatype ProfileForm = ProfileForm(name: string, mobile_number: string, department: string, subjects: string)

  /** The form filled from the profile, '' standing for a missing value. */
  function FormFor(profile: Option<Profile>): (f: ProfileForm)
    ensures profile.None? ==> f == ProfileForm("", "", "", "")
    ensures profile.Some? ==>
      && f.name == profile.value.name
      && f.department == profile.value.department
      && (profile.value.mobile_number.Some? ==> f.mobile_number == profile.value.mobile_number.value)
      && (profile.value.mobile_number.None? ==> f.mobile_number == "")
      && (profile.value.subjects.Some? ==> f.subjects == profile.value.subjects.value)
      && (profile.value.subjects.None? ==> f.subjects == "")
  {
    match profile
    case None => ProfileForm("", "", "", "")
    case Some(p) => ProfileForm(p.name, p.mobile_number.GetOr(""), p.department, p.subjects.GetOr(""))
  }

  /** What a successful partial update does to the stored row: the columns
      of the payload take its values, every other column keeps its own. */
  function ApplyUpdate(p: Profile, f: ProfileForm): (q: Profile)
    ensures q.id == p.id && q.email == p.email && q.role == p.role
    ensures q.created_at == p.created_at && q.updated_at == p.updated_at
  {
    p.(name := f.name, mobile_number := Some(f.mobile_number), department := f.department,
       subjects := Some(f.subjects))
  }

  /** Saving a form and reloading the profile shows that same form again. */
  lemma SavedFormReloads(p: Profile, f: ProfileForm)
    ensures FormFor(Some(ApplyUpdate(p, f))) == f
  {
  }

  /** Saving an untouched form leaves a profile that has every optional
      field set exactly as it was. */
  lemma UntouchedSaveKeepsProfile(p: Profile)
    requires p.mobile_number.Some? && p.subjects.Some?
    ensures ApplyUpdate(p, FormFor(Some(p))) == p
  {
  }

  /** Saving an untouched form is not quite a no-op: a missing mobile
      number is stored back as the empty string. */
  lemma UntouchedSaveFillsMissingMobile(p: Profile)
    requires p.mobile_number.None?
    ensures ApplyUpdate(p, FormFor(Some(p))).mobile_number == Some("")
  {
  }

  /** The page's state: `editing`, `loading` and `formData`. */
  datatype EditorState = EditorState(editing: bool, loading: bool, form: ProfileForm)

  function Initial(profile: Option<Profile>): EditorState {
    EditorState(false, false, FormFor(profile))
  }

  datatype Field = Name | MobileNumber | Department | Subjects

  /** One keystroke's `onChange`: the field takes the input's value. */
  function Edited(s: EditorState, field: Field, value: string): (t: EditorState)
    ensures t.editing == s.editing && t.loading == s.loading
    ensures field == Name ==> t.form == s.form.(name := value)
    ensures field == MobileNumber ==> t.form == s.form.(mobile_number := value)
    ensures field == Department ==> t.form == s.form.(department := value)
    ensures field == Subjects ==> t.form == s.form.(subjects := value)
  {
    match field
    case Name => s.(form := s.form.(name := value))
    case MobileNumber => s.(form := s.form.(mobile_number := value))
    case Department => s.(form := s.form.(department := value))
    case Subjects => s.(form := s.form.(subjects := value))
  }

  /** Any sequence of keystrokes. */
  function EditedAll(s: EditorState, edits: seq<(Field, string)>): (t: EditorState)
    ensures t.editing == s.editing && t.loading == s.loading
    decreases |edits|
  {
    if edits == [] then s else EditedAll(Edited(s, edits[0].0, edits[0].1), edits[1..])
  }

  /** `handleCancel`: the form is refilled from the profile, editing ends. */
  function Cancelled(s: EditorState, profile: Option<Profile>): (t: EditorState)
    ensures t.form == FormFor(profile) && !t.editing && t.loading == s.loading
  {
    s.(form := FormFor(profile), editing := false)
  }

  /** Cancelling twice is cancelling once. */
  lemma CancelIdempotent(s: EditorState, profile: Option<Profile>)
    ensures Cancelled(Cancelled(s, profile), profile) == Cancelled(s, profile)
  {
  }

  /** Cancel discards every edit made since editing began: keystrokes
      leave `loading` alone, and cancel replaces the form as a whole. */
  lemma CancelDiscardsEdits(s: EditorState, edits: seq<(Field, string)>, profile: Option<Profile>)
    ensures Cancelled(EditedAll(s, edits), profile) == Cancelled(s, profile)
  {
  }

  /** `handleSubmit` after the update replied: loading is over, editing
      ends only on success, and the form keeps what was sent. */
  function Submitted(s: EditorState, reply: Outcome): (t: EditorState)
    ensures !t.loading && t.form == s.form
    ensures t.editing == (s.editing && reply.Err?)
  {
    s.(loading := false, editing := if reply.Ok? then false else s.editing)
  }

  /** `formData` is filled once, when the page mounts, and nothing refills
      it when the profile arrives later. If the page mounted before the
      profile was loaded, saving without typing sends empty fields, and the
      update would blank the stored name. */
  lemma LateProfileSavesBlankForm(p: Profile, reply: Outcome)
    ensures var s := Submitted(Initial(None).(editing := true), reply);
            s.form == ProfileForm("", "", "", "") && ApplyUpdate(p, s.form).name == ""
  {
  }

  /** The read-only role field: the stored role with a capital first letter. */
  function RoleLabel(r: Role): (shown: string)
    ensures r == Student ==> shown == "Student"
    ensures r == Faculty ==> shown == "Faculty"
    ensures r == Admin ==> shown == "Admin"
  {
    Capitalize(RoleName(r))
  }

  /** Distinct roles get distinct labels. */
  lemma RoleLabelInjective(a: Role, b: Role)
    ensures RoleLabel(a) == RoleLabel(b) <==> a == b
  {
  }

  /** The Profile page component. */
  class Editor {
    var editing: bool
    var loading: bool
    var formData: ProfileForm

    function State(): EditorState
      reads this
    {
      EditorState(editing, loading, formData)
    }

    constructor (profile: Option<Profile>)
      ensures State() == Initial(profile)
    {
      editing := false;
      loading := false;
      formData := FormFor(profile);
    }

    /** The "Edit Profile" button. */
    method StartEditing()
      modifies this
      ensures State() == old(State()).(editing := true)
    {
      editing := true;
    }

    /** An input's `onChange`. */
    method Edit(field: Field, value: string)
      modifies this
      ensures State() == Edited(old(State()), field, value)
    {
      match field
      case Name => formData := formData.(name := value);
      case MobileNumber => formData := formData.(mobile_number := value);
      case Department => formData := formData.(department := value);
      case Subjects => formData := formData.(subjects := value);
    }

    /** `handleCancel`. */
    method HandleCancel(profile: Option<Profile>)
      modifies this
      ensures State() == Cancelled(old(State()), profile)
    {
      formData := FormFor(profile);
      editing := false;
    }

    /** `handleSubmit`: sends the form as it stands (returned as `payload`)
        and applies the reply of the update. */
    method HandleSubmit(reply: Outcome) returns (payload: ProfileForm)
      modifies this
      ensures payload == old(formData)
      ensures State() == Submitted(old(State()), reply)
    {
      loading := true;
      payload := formData;
      if reply.Ok? {
        editing := false;
      }
      loading := false;
    }
  }
}
