/** The Notes page: the notes of the signed-in user's department, narrowed
    by a search box and two dropdowns, the option lists of those dropdowns,
    and the faculty-only upload of a new note (object upload, then the
    metadata row). */
module NotesPage {
  import opened Common
  import opened Text
  import opened Lists
  import opened Records

  /** The filter a note must pass to be shown (the callback of `filteredNotes`). */
  predicate NoteMatches(n: Note, search: string, subject: string, faculty: string)
    ensures search == "" && subject == "" && faculty == "" ==> NoteMatches(n, search, subject, faculty)
    ensures NoteMatches(n, search, subject, faculty) && faculty != "" ==> n.profiles.Some?
  {
    EmptyOccursEverywhere(Lower(n.title));
    && (ContainsIgnoringCase(n.title, search) || FacultyNameMatches(n, search))
    && (subject == "" || ContainsIgnoringCase(n.subject, subject))
    && (faculty == "" || FacultyNameMatches(n, faculty))
  }

  /** `filteredNotes`: the notes passing the filter, in their original order. */
  function FilteredNotes(notes: seq<Note>, search: string, subject: string, faculty: string): (r: seq<Note>)
    ensures IsSubsequence(r, notes)
    ensures forall n :: n in r <==> n in notes && NoteMatches(n, search, subject, faculty)
    ensures forall n :: multiset(r)[n] == if NoteMatches(n, search, subject, faculty) then multiset(notes)[n] else 0
  {
    FilterCounts(notes, (n: Note) => NoteMatches(n, search, subject, faculty));
    Filter(notes, (n: Note) => NoteMatches(n, search, subject, faculty))
  }

  /** With the search box and both dropdowns empty, every note is shown. */
  lemma NoFilterShowsAll(notes: seq<Note>)
    ensures FilteredNotes(notes, "", "", "") == notes
  {
    forall n | n in notes ensures NoteMatches(n, "", "", "") {
      EmptyOccursEverywhere(Lower(n.title));
    }
  }

  /** The search box looks at the title and the uploader's name, never at
      the subject: a shown note matched the search in one of those two. */
  lemma SearchCoversTitleAndFacultyOnly(notes: seq<Note>, search: string, subject: string, faculty: string)
    ensures forall n :: n in FilteredNotes(notes, search, subject, faculty) ==>
      ContainsIgnoringCase(n.title, search) || FacultyNameMatches(n, search)
  {
  }

  /** The subject dropdown admits a note whose subject merely contains the
      chosen subject, ignoring case; it need not be equal to it. */
  lemma SubjectFilterIsContainment(n: Note, notes: seq<Note>, subject: string, prefix: string, suffix: string)
    requires n in notes
    requires Lower(n.subject) == prefix + Lower(subject) + suffix
    ensures n in FilteredNotes(notes, "", subject, "")
  {
    var h := Lower(n.subject);
    assert h[|prefix|..|prefix| + |Lower(subject)|] == Lower(subject);
    assert OccursAt(h, Lower(subject), |prefix|);
    ContainsIffOccurs(h, Lower(subject));
    EmptyOccursEverywhere(Lower(n.title));
  }

  /** Once a faculty is chosen, a note without an embedded uploader
      is never shown. */
  lemma FacultyFilterNeedsUploader(notes: seq<Note>, search: string, subject: string, faculty: string)
    requires faculty != ""
    ensures forall n :: n in FilteredNotes(notes, search, subject, faculty) ==> n.profiles.Some?
  {
  }

  /** The fetch asks the backend for one department only; if the reply
      honours that, every note shown belongs to that department. */
  lemma ShownNotesStayInDepartment(notes: seq<Note>, department: string, search: string, subject: string, faculty: string)
    requires forall n :: n in notes ==> n.department == department
    ensures forall n :: n in FilteredNotes(notes, search, subject, faculty) ==> n.department == department
  {
  }

  /** `notes.map(note => note.subject)`. */
  function SubjectColumn(notes: seq<Note>): (r: seq<string>)
    ensures |r| == |notes| && forall i :: 0 <= i < |notes| ==> r[i] == notes[i].subject
  {
    seq(|notes|, i requires 0 <= i < |notes| => notes[i].subject)
  }

  /** `subjects`: each subject of the notes once, in order of first use. */
  function Subjects(notes: seq<Note>): (r: seq<string>)
    ensures forall x :: x in r <==> exists i :: 0 <= i < |notes| && notes[i].subject == x
    ensures forall x :: x in r ==> x in SubjectColumn(notes)
    ensures NoDuplicates(r)
    ensures forall i, j :: 0 <= i < j < |r| ==>
      FirstIndex(SubjectColumn(notes), r[i]) < FirstIndex(SubjectColumn(notes), r[j])
  {
    var column := SubjectColumn(notes);
    assert forall x :: x in column <==> exists i :: 0 <= i < |notes| && notes[i].subject == x by {
      forall x | x in column ensures exists i :: 0 <= i < |notes| && notes[i].subject == x {
        var i :| 0 <= i < |column| && column[i] == x;
        assert notes[i].subject == x;
      }
    }
    Distinct(column)
  }

  /** `notes.map(note => note.profiles?.name)`, position by position, with
      a missing name written as '' (`filter(Boolean)` drops both alike). */
  function NameColumn(notes: seq<Note>): (r: seq<string>)
    ensures |r| == |notes|
    ensures forall i :: 0 <= i < |notes| ==> r[i] == FacultyName(notes[i]).GetOr("")
  {
    seq(|notes|, i requires 0 <= i < |notes| => FacultyName(notes[i]).GetOr(""))
  }

  /** `Boolean` on a name: it is present and not empty. */
  predicate NonEmpty(name: string) {
    name != ""
  }

  /** `notes.map(note => note.profiles?.name).filter(Boolean)`: the embedded
      uploader names in the order of the notes, without missing or empty ones. */
  function FacultyColumn(notes: seq<Note>): (r: seq<string>)
    ensures IsSubsequence(r, NameColumn(notes))
    ensures forall x :: x in r <==> x != "" && exists i :: 0 <= i < |notes| && FacultyName(notes[i]) == Some(x)
    ensures forall x :: multiset(r)[x] == if x != "" then multiset(NameColumn(notes))[x] else 0
  {
    var column := NameColumn(notes);
    assert forall x :: x != "" ==> (x in column <==> exists i :: 0 <= i < |notes| && FacultyName(notes[i]) == Some(x)) by {
      forall x | x != "" && x in column ensures exists i :: 0 <= i < |notes| && FacultyName(notes[i]) == Some(x) {
        var i :| 0 <= i < |column| && column[i] == x;
        assert FacultyName(notes[i]) == Some(x);
      }
      forall x | x != "" && exists i :: 0 <= i < |notes| && FacultyName(notes[i]) == Some(x) ensures x in column {
        var i :| 0 <= i < |notes| && FacultyName(notes[i]) == Some(x);
        assert column[i] == x;
      }
    }
    FilterCounts(column, NonEmpty);
    Filter(column, NonEmpty)
  }

  /** The first-occurrence order of the de-duplicated names carries over
      from the non-empty names to the whole column. */
  lemma KeptFirstOrder(column: seq<string>, kept: seq<string>, r: seq<string>)
    requires kept == Filter(column, NonEmpty)
    requires forall x :: x in r ==> x in kept
    requires forall i, j :: 0 <= i < j < |r| ==> FirstIndex(kept, r[i]) < FirstIndex(kept, r[j])
    ensures forall x :: x in r ==> x in column
    ensures forall i, j :: 0 <= i < j < |r| ==> FirstIndex(column, r[i]) < FirstIndex(column, r[j])
  {
    forall i, j | 0 <= i < j < |r| ensures FirstIndex(column, r[i]) < FirstIndex(column, r[j]) {
      FilterKeepsFirstOrder(column, NonEmpty, r[i], r[j]);
    }
  }

  /** `faculty`: each non-empty uploader name once, in order of first use
      among the notes. */
  function FacultyNames(notes: seq<Note>): (r: seq<string>)
    ensures forall x :: x in r <==> x != "" && exists i :: 0 <= i < |notes| && FacultyName(notes[i]) == Some(x)
    ensures forall x :: x in r ==> x in NameColumn(notes)
    ensures NoDuplicates(r)
    ensures forall i, j :: 0 <= i < j < |r| ==>
      FirstIndex(NameColumn(notes), r[i]) < FirstIndex(NameColumn(notes), r[j])
  {
    var column := NameColumn(notes);
    var kept := Filter(column, NonEmpty);
    assert kept == FacultyColumn(notes);
    var r := Distinct(kept);
    KeptFirstOrder(column, kept, r);
    r
  }

  datatype File = File(name: string)

  /** `uploadData`: the upload form. */
  datatype UploadForm = UploadForm(title: string, subject: string, file: Option<File>)

  const EmptyUpload := UploadForm("", "", None)

  /** The metadata row inserted for an uploaded file. */
  datatype NoteInsert = NoteInsert(
    title: string,
    subject: string,
    file_url: string,
    file_name: string,
    department: string,
    faculty_id: string)

  /** `${profile.id}/${Date.now()}.${ext}`: the object path of an upload,
      in the uploader's own folder, keeping the extension of the file. */
  function StoragePath(uploaderId: string, now: nat, fileName: string): (path: string)
    ensures |path| > |uploaderId| && path[..|uploaderId|] == uploaderId && path[|uploaderId|] == '/'
  {
    uploaderId + "/" + Decimal(now) + "." + Extension(fileName)
  }

  /** The stored object has the extension of the uploaded file. */
  lemma StoragePathKeepsExtension(uploaderId: string, now: nat, fileName: string)
    ensures Extension(StoragePath(uploaderId, now, fileName)) == Extension(fileName)
  {
    ExtensionAfterSeparator(uploaderId + "/" + Decimal(now), Extension(fileName));
  }

  /** The object name after the uploader's folder splits on '.' into the
      timestamp digits and the extension, and the digits read back as the
      timestamp: the path determines folder, time and extension. */
  lemma StoragePathDecodes(uploaderId: string, now: nat, fileName: string)
    ensures var path := StoragePath(uploaderId, now, fileName);
            var parts := Split(path[|uploaderId| + 1..], '.');
            && parts == [Decimal(now), Extension(fileName)]
            && DecimalValue(parts[0]) == now
  {
    var digits, ext := Decimal(now), Extension(fileName);
    var path := StoragePath(uploaderId, now, fileName);
    var folder, obj := uploaderId + "/", digits + "." + ext;
    assert path == folder + obj;
    assert |folder| == |uploaderId| + 1;
    assert (folder + obj)[|folder|..] == obj;
    ObjectNameSplits(digits, ext);
    DecimalRoundTrip(now);
  }

  /** A digit string, a '.' and a '.'-free extension split back apart. */
  lemma ObjectNameSplits(digits: string, ext: string)
    requires forall i :: 0 <= i < |digits| ==> IsDigitChar(digits[i])
    requires '.' !in ext
    ensures Split(digits + "." + ext, '.') == [digits, ext]
  {
    var parts := [digits, ext];
    assert parts[..1] == [digits];
    assert Join(parts, '.') == digits + "." + ext;
    assert '.' !in digits;
    SplitJoin(parts, '.');
  }

  /** What one submission of the upload form did. After `StorageFailed`
      nothing was inserted; after `InsertFailed` the object stays stored
      without a row. */
  datatype UploadResult =
    | Skipped
    | StorageFailed(path: string)
    | InsertFailed(path: string, row: NoteInsert)
    | Uploaded(path: string, row: NoteInsert)

  /** `handleUpload` as a function of the form, the uploader, the clock and
      the two backend replies. */
  function UploadNote(form: UploadForm, profile: Option<Profile>, now: nat, storage: Outcome, insert: Outcome): (r: UploadResult)
    ensures r.Skipped? <==> form.file.None? || profile.None?
    ensures r.StorageFailed? <==> !r.Skipped? && storage.Err?
    ensures r.Uploaded? <==> !r.Skipped? && storage.Ok? && insert.Ok?
    ensures !r.Skipped? ==> r.path == StoragePath(profile.value.id, now, form.file.value.name)
    ensures (r.InsertFailed? || r.Uploaded?) ==>
      && r.row.file_url == r.path
      && r.row.file_name == form.file.value.name
      && r.row.department == profile.value.department
      && r.row.faculty_id == profile.value.id
      && r.row.title == form.title
      && r.row.subject == form.subject
  {
    if form.file.None? || profile.None? then Skipped
    else
      var file, uploader := form.file.value, profile.value;
      var path := StoragePath(uploader.id, now, file.name);
      if storage.Err? then StorageFailed(path)
      else
        var row := NoteInsert(form.title, form.subject, path, file.name, uploader.department, uploader.id);
        if insert.Err? then InsertFailed(path, row) else Uploaded(path, row)
  }

  /** The inserted row's `file_url` ends in the extension of its `file_name`. */
  lemma UploadedRowKeepsExtension(form: UploadForm, profile: Option<Profile>, now: nat, storage: Outcome, insert: Outcome)
    ensures var r := UploadNote(form, profile, now, storage, insert);
            (r.InsertFailed? || r.Uploaded?) ==> Extension(r.row.file_url) == Extension(r.row.file_name)
  {
    if form.file.Some? && profile.Some? {
      StoragePathKeepsExtension(profile.value.id, now, form.file.value.name);
    }
  }

  /** The state of the Notes page component. */
  class Notes {
    var notes: seq<Note>
    var loading: bool
    var showUploadModal: bool
    var uploadData: UploadForm
    var uploading: bool

    constructor ()
      ensures notes == [] && loading
      ensures !showUploadModal && uploadData == EmptyUpload && !uploading
    {
      notes := [];
      loading := true;
      showUploadModal := false;
      uploadData := EmptyUpload;
      uploading := false;
    }

    /** `fetchNotes`: without a profile nothing happens (and the spinner
        stays); otherwise the reply's rows replace the list, an error keeps
        it, and loading ends either way. */
    method FetchNotes(profile: Option<Profile>, reply: Query<Note>)
      modifies this
      ensures profile.None? ==> notes == old(notes) && loading == old(loading)
      ensures profile.Some? ==> !loading && notes == (if reply.Rows? then reply.RowsOrEmpty() else old(notes))
      ensures showUploadModal == old(showUploadModal) && uploadData == old(uploadData)
      ensures uploading == old(uploading)
    {
      if profile.None? {
        return;
      }
      if reply.Rows? {
        notes := reply.RowsOrEmpty();
      }
      loading := false;
    }

    /** The "Upload Note" button, rendered for faculty only. */
    method OpenUploadModal(profile: Option<Profile>)
      modifies this
      ensures showUploadModal == (old(showUploadModal) || (profile.Some? && profile.value.role == Faculty))
      ensures notes == old(notes) && loading == old(loading)
      ensures uploadData == old(uploadData) && uploading == old(uploading)
    {
      if profile.Some? && profile.value.role == Faculty {
        showUploadModal := true;
      }
    }

    /** The modal's close and Cancel buttons: the form keeps its contents. */
    method CloseUploadModal()
      modifies this
      ensures !showUploadModal
      ensures notes == old(notes) && loading == old(loading)
      ensures uploadData == old(uploadData) && uploading == old(uploading)
    {
      showUploadModal := false;
    }

    /** `handleUpload`: the outcome of the submission is `UploadNote` of
        the form; `uploading` is raised for a submission that went ahead and
        lowered when it ends, and only when both backend calls succeed does
        the modal close and the form reset. A refetch follows an `Uploaded`
        result. */
    method HandleUpload(profile: Option<Profile>, now: nat, storage: Outcome, insert: Outcome) returns (r: UploadResult)
      modifies this
      ensures r == UploadNote(old(uploadData), profile, now, storage, insert)
      ensures r.Uploaded? ==> !showUploadModal && uploadData == EmptyUpload
      ensures !r.Uploaded? ==> showUploadModal == old(showUploadModal) && uploadData == old(uploadData)
      ensures uploading == (if r.Skipped? then old(uploading) else false)
      ensures notes == old(notes) && loading == old(loading)
    {
      r := UploadNote(uploadData, profile, now, storage, insert);
      if r.Skipped? {
        return;
      }
      uploading := true;
      if r.Uploaded? {
        showUploadModal := false;
        uploadData := EmptyUpload;
      }
      uploading := false;
    }
  }
}
