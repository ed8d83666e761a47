/**
 * The add/edit memory modal: the checks before a submission, the
 * multipart form it sends, the method and URL, the alert built from an
 * error response, the form reset, the default date and the image preview.
 */
module AddMemoryModal {
  import opened Wrappers
  import opened Text
  import opened Lists
  import Session
  import Serializers

  const MemoriesUrl: string := Session.ApiBase + "/api/memories/"
  const DefaultTag: string := "General"
  const NotAuthenticated: string := "Not authenticated"
  const TitleRequired: string := "Title is required"
  const DateRequired: string := "Date is required"
  const UploadError: string := "Upload error"

  // ---------------------------------------------------------------------
  // Default date

  /** A calendar day as the browser's clock gives it: `getFullYear()`, `getMonth() + 1`, `getDate()`. */
  datatype Day = Day(year: nat, month: nat, day: nat)

  predicate IsCalendarDay(d: Day) {
    1 <= d.month <= 12 && 1 <= d.day <= 31
  }

  /** `${year}-${month padded to 2}-${day padded to 2}`. */
  function DateText(d: Day): string {
    Decimal(d.year) + "-" + Pad2(d.month) + "-" + Pad2(d.day)
  }

  /** Reads "y-mm-dd" back: three runs of digits between two dashes. */
  function ReadDate(s: string): Option<Day> {
    var parts := SplitOn(s, '-');
    if |parts| == 3 && parts[0] != "" && Serializers.AllDigits(parts[0])
       && Serializers.AllDigits(parts[1]) && Serializers.AllDigits(parts[2])
    then Some(Day(DigitsValue(parts[0]), DigitsValue(parts[1]), DigitsValue(parts[2])))
    else None
  }

  /** The default date has two-digit month and day, and reads back as the same day. */
  lemma DateTextRoundTrip(d: Day)
    requires IsCalendarDay(d)
    ensures var t := DateText(d);
      && |t| == |Decimal(d.year)| + 6
      && t[|t| - 3] == '-' && t[|t| - 6] == '-'
      && ReadDate(t) == Some(d)
  {
    var y, m, dd := Decimal(d.year), Pad2(d.month), Pad2(d.day);
    Pad2RoundTrip(d.month);
    Pad2RoundTrip(d.day);
    var t := DateText(d);
    assert t == y + "-" + m + "-" + dd;
    assert |t| == |y| + 6;
    assert t[|t| - 3] == '-' && t[|t| - 6] == '-';
    DateTextReads(d);
  }

  lemma DateTextReads(d: Day)
    ensures ReadDate(DateText(d)) == Some(Day(d.year, DigitsValue(Pad2(d.month)), DigitsValue(Pad2(d.day))))
  {
    var y, m, dd := Decimal(d.year), Pad2(d.month), Pad2(d.day);
    DateTextParts(d);
    DecimalRoundTrip(d.year);
    assert Serializers.AllDigits(y) && Serializers.AllDigits(m) && Serializers.AllDigits(dd);
  }

  lemma DateTextParts(d: Day)
    ensures SplitOn(DateText(d), '-') == [Decimal(d.year), Pad2(d.month), Pad2(d.day)]
  {
    var y, m, dd := Decimal(d.year), Pad2(d.month), Pad2(d.day);
    DigitsHaveNoDash(y);
    DigitsHaveNoDash(m);
    DigitsHaveNoDash(dd);
    assert DateText(d) == y + ['-'] + (m + ['-'] + dd);
    SplitOnCons(y, m + ['-'] + dd, '-');
    SplitOnCons(m, dd, '-');
    SplitOnAbsent(dd, '-');
  }

  lemma DigitsHaveNoDash(s: string)
    requires Serializers.AllDigits(s)
    ensures '-' !in s
  {
    forall i | 0 <= i < |s| ensures s[i] != '-' {
    }
  }

  // ---------------------------------------------------------------------
  // Validation

  /** The alert that stops a submission before any request: checked in the order access, title, date. */
  function Rejection(access: Option<string>, title: string, date: string): (r: Option<string>)
    ensures r.None? <==> Session.Truthy(access) && !IsBlank(title) && date != ""
    ensures !Session.Truthy(access) ==> r == Some(NotAuthenticated)
    ensures Session.Truthy(access) && IsBlank(title) ==> r == Some(TitleRequired)
    ensures Session.Truthy(access) && !IsBlank(title) && date == "" ==> r == Some(DateRequired)
  {
    TrimBlank(title);
    if !Session.Truthy(access) then Some(NotAuthenticated)
    else if Trim(title) == "" then Some(TitleRequired)
    else if date == "" then Some(DateRequired)
    else None
  }

  // ---------------------------------------------------------------------
  // The multipart form

  /** A file chosen in the file input. */
  datatype File = File(name: string)

  datatype Part = TextPart(text: string) | FilePart(file: File)

  /** FormData entries, in the order they were appended. */
  type Form = seq<(string, Part)>

  function FormKeys(fd: Form): (r: seq<string>)
    ensures |r| == |fd| && forall i :: 0 <= i < |r| ==> r[i] == fd[i].0
  {
    seq(|fd|, i requires 0 <= i < |fd| => fd[i].0)
  }

  /**
   * `patientId && ...`: the route parameter as text, `None` where the page
   * passes none; only the empty text is falsy.
   */
  predicate HasPatient(patientId: Option<string>) {
    patientId.Some? && patientId.value != ""
  }

  /** The form `handleSubmit` builds from the current fields. */
  function FormFields(title: string, description: string, date: string, location: string, tag: string,
                      patientId: Option<string>, editing: bool, file: Option<File>): Form
  {
    var always := [("title", TextPart(title)), ("description", TextPart(description)), ("date", TextPart(date)),
                   ("location", TextPart(location)), ("tag", TextPart(tag))];
    var withPatient := if HasPatient(patientId) && !editing
                       then always + [("patient_id", TextPart(patientId.value))] else always;
    if file.Some? then withPatient + [("image", FilePart(file.value))] else withPatient
  }

  /**
   * The five text fields always come first; `patient_id` follows only when
   * creating for a patient, `image` only when a file was chosen, and no key
   * appears twice.
   */
  lemma FormFieldsSpec(title: string, description: string, date: string, location: string, tag: string,
                       patientId: Option<string>, editing: bool, file: Option<File>)
    ensures var fd := FormFields(title, description, date, location, tag, patientId, editing, file);
      && |fd| >= 5
      && fd[..5] == [("title", TextPart(title)), ("description", TextPart(description)), ("date", TextPart(date)),
                     ("location", TextPart(location)), ("tag", TextPart(tag))]
      && ("patient_id" in FormKeys(fd) <==> HasPatient(patientId) && !editing)
      && (HasPatient(patientId) && !editing ==> fd[5] == ("patient_id", TextPart(patientId.value)))
      && ("image" in FormKeys(fd) <==> file.Some?)
      && (file.Some? ==> fd[|fd| - 1] == ("image", FilePart(file.value)))
      && Distinct(FormKeys(fd))
  {
    var fd := FormFields(title, description, date, location, tag, patientId, editing, file);
    var always := ["title", "description", "date", "location", "tag"];
    var withPatient := always + (if HasPatient(patientId) && !editing then ["patient_id"] else []);
    var keys := withPatient + (if file.Some? then ["image"] else []);
    assert FormKeys(fd) == keys;
    assert "patient_id" !in always && "image" !in withPatient;
    DistinctAppend(always, if HasPatient(patientId) && !editing then ["patient_id"] else []);
    DistinctAppend(withPatient, if file.Some? then ["image"] else []);
  }

  lemma DistinctAppend<T>(s: seq<T>, t: seq<T>)
    requires Distinct(s) && |t| <= 1 && forall x :: x in t ==> x !in s
    ensures Distinct(s + t)
  {
    if |t| == 1 {
      forall i, j | 0 <= i < j < |s + t| ensures (s + t)[i] != (s + t)[j] {
        if j == |s| {
          assert t[0] in t;
          assert (s + t)[i] == s[i] && (s + t)[j] == t[0];
        } else {
          assert (s + t)[i] == s[i] && (s + t)[j] == s[j];
        }
      }
    } else {
      assert s + t == s;
    }
  }

  // ---------------------------------------------------------------------
  // Method and URL

  datatype Request = Request(verb: string, url: string, authorization: string, form: Form)

  /** PUT to the memory's own URL when editing, POST to the collection otherwise. */
  function Target(editingId: Option<int>): (r: (string, string))
    ensures r.0 == (if editingId.Some? then "PUT" else "POST")
    ensures StartsWith(r.1, MemoriesUrl)
  {
    if editingId.Some? then ("PUT", MemoriesUrl + IntText(editingId.value) + "/") else ("POST", MemoriesUrl)
  }

  /** The edit URL names the edited memory, and the create URL names none. */
  lemma TargetNamesMemory(editingId: Option<int>)
    ensures var url := Target(editingId).1;
      && (editingId.None? ==> url == MemoriesUrl)
      && (editingId.Some? ==> |url| > |MemoriesUrl| && url[|url| - 1] == '/'
                              && Serializers.ReadInt(url[|MemoriesUrl|..|url| - 1]) == Some(editingId.value))
  {
    if editingId.Some? {
      var url := Target(editingId).1;
      assert url[|MemoriesUrl|..|url| - 1] == IntText(editingId.value);
      Serializers.IntTextRoundTrip(editingId.value);
    }
  }

  // ---------------------------------------------------------------------
  // The error alert

  /** A field of the JSON answer: an array of messages, or any other value as `String(v)` gives it. */
  datatype Value = Scalar(text: string) | List(items: seq<string>)

  /** The parsed answer: `typeof data === "object"` for objects and arrays; a scalar is only truthy or not. */
  datatype Json = JObject(fields: seq<(string, Value)>) | JArray(elements: seq<Value>) | JScalar(truthy: bool)

  predicate IsTruthy(data: Json) {
    !data.JScalar? || data.truthy
  }

  /** `Object.entries(data)`: an array's entries are keyed by index. */
  function Entries(data: Json): seq<(string, Value)>
    requires !data.JScalar?
  {
    if data.JObject? then data.fields
    else seq(|data.elements|, i requires 0 <= i < |data.elements| => (IntText(i), data.elements[i]))
  }

  function ValueText(v: Value): string {
    if v.List? then Join(v.items, ", ") else v.text
  }

  function ErrorLines(entries: seq<(string, Value)>): (r: seq<string>)
    ensures |r| == |entries|
    ensures forall i :: 0 <= i < |r| ==> r[i] == entries[i].0 + ": " + ValueText(entries[i].1)
  {
    seq(|entries|, i requires 0 <= i < |entries| => entries[i].0 + ": " + ValueText(entries[i].1))
  }

  function Failed(editing: bool): string {
    if editing then "Failed to update memory" else "Failed to create memory"
  }

  /** The alert for a failed answer: the joined lines, or the generic text when there are none. */
  function ErrorMessage(editing: bool, data: Option<Json>): (r: string)
    ensures r != ""
  {
    if data.Some? && IsTruthy(data.value) && !data.value.JScalar? then
      var msg := Join(ErrorLines(Entries(data.value)), "\n");
      if msg != "" then msg else Failed(editing)
    else Failed(editing)
  }

  predicate NoNewline(entries: seq<(string, Value)>) {
    forall i :: 0 <= i < |entries| ==> '\n' !in entries[i].0 + ": " + ValueText(entries[i].1)
  }

  /**
   * An object answer with fields shows one "key: value" line per field, in
   * order (split the alert at its line breaks to get them back); one
   * without fields shows the generic text.
   */
  lemma ErrorMessageLines(editing: bool, fields: seq<(string, Value)>)
    ensures fields == [] ==> ErrorMessage(editing, Some(JObject(fields))) == Failed(editing)
    ensures fields != [] && NoNewline(fields) ==>
      SplitOn(ErrorMessage(editing, Some(JObject(fields))), '\n') == ErrorLines(fields)
  {
    var lines := ErrorLines(fields);
    if fields != [] {
      assert lines[0] == fields[0].0 + ": " + ValueText(fields[0].1);
      JoinNonEmpty(lines, "\n");
      if NoNewline(fields) {
        JoinSplitOn(lines, '\n');
      }
    }
  }

  lemma JoinNonEmpty(parts: seq<string>, sep: string)
    requires |parts| >= 1 && parts[0] != ""
    ensures Join(parts, sep) != ""
  {
  }

  // ---------------------------------------------------------------------
  // The modal

  /** `previewUrl.startsWith('blob:')`. */
  predicate IsBlob(url: string) {
    StartsWith(url, "blob:")
  }

  /** The preview URLs `URL.revokeObjectURL` is called on when the preview is replaced. */
  function Revoking(preview: Option<string>): (r: seq<string>)
    ensures |r| <= 1 && (r != [] <==> preview.Some? && IsBlob(preview.value))
  {
    if preview.Some? && IsBlob(preview.value) then [preview.value] else []
  }

  /** The fields of the memory being edited, "" where they are empty. */
  datatype Editing = Editing(id: int, title: string, description: string, date: string, location: string,
                             tag: string, imageUrl: string)

  /** The answer to the submission. */
  datatype Reply = Answered(status: int, data: Option<Json>) | Threw(message: string)

  class Modal {
    var title: string
    var description: string
    var date: string
    var location: string
    var tag: string
    var imageFile: Option<File>
    var previewUrl: Option<string>
    var submitting: bool
    /** Every blob URL handed to `URL.revokeObjectURL`, in order. */
    var revoked: seq<string>

    predicate Blank(today: Day)
      reads this
    {
      && title == "" && description == "" && date == DateText(today) && location == ""
      && tag == DefaultTag && imageFile == None && previewUrl == None
    }

    constructor (today: Day)
      ensures Blank(today) && !submitting && revoked == []
    {
      title, description, date, location, tag := "", "", DateText(today), "", DefaultTag;
      imageFile, previewUrl, submitting, revoked := None, None, false, [];
    }

    /** `resetForm`: every field back to its initial value, and a blob preview revoked. */
    method ResetForm(today: Day)
      modifies this`title, this`description, this`date, this`location, this`tag,
               this`imageFile, this`previewUrl, this`revoked
      ensures Blank(today) && revoked == old(revoked) + Revoking(old(previewUrl))
    {
      title := "";
      description := "";
      date := DateText(today);
      location := "";
      tag := DefaultTag;
      imageFile := None;
      if previewUrl.Some? && IsBlob(previewUrl.value) {
        revoked := revoked + [previewUrl.value];
      }
      previewUrl := None;
    }

    /** `handleImageChange`: a new choice revokes a blob preview and previews the file by `objectUrl`. */
    method ChooseImage(file: Option<File>, objectUrl: string)
      modifies this`imageFile, this`previewUrl, this`revoked
      ensures revoked == old(revoked) + Revoking(old(previewUrl))
      ensures imageFile == file
      ensures previewUrl == (if file.Some? then Some(objectUrl) else None)
    {
      if previewUrl.Some? && IsBlob(previewUrl.value) {
        revoked := revoked + [previewUrl.value];
      }
      imageFile := file;
      previewUrl := if file.Some? then Some(objectUrl) else None;
    }

    /** Filling the form from the memory being edited; a memory without an image keeps the preview. */
    method Populate(m: Editing)
      modifies this`title, this`description, this`date, this`location, this`tag, this`previewUrl
      ensures title == m.title && description == m.description && date == m.date && location == m.location
      ensures tag == (if m.tag != "" then m.tag else DefaultTag)
      ensures previewUrl == (if m.imageUrl != "" then Some(m.imageUrl) else old(previewUrl))
    {
      title := m.title;
      description := m.description;
      date := m.date;
      location := m.location;
      tag := if m.tag != "" then m.tag else DefaultTag;
      if m.imageUrl != "" {
        previewUrl := Some(m.imageUrl);
      }
    }

    /** The form fields and the preview bookkeeping, as one value. */
    function State(): FormState
      reads this
    {
      FormState(title, description, date, location, tag, imageFile, previewUrl, revoked)
    }

    /** The successive `fd.append` calls of `handleSubmit`. */
    method BuildForm(patientId: Option<string>, editing: bool) returns (fd: Form)
      ensures fd == FormFields(title, description, date, location, tag, patientId, editing, imageFile)
    {
      fd := [];
      fd := fd + [("title", TextPart(title))];
      fd := fd + [("description", TextPart(description))];
      fd := fd + [("date", TextPart(date))];
      fd := fd + [("location", TextPart(location))];
      fd := fd + [("tag", TextPart(tag))];
      if HasPatient(patientId) && !editing {
        fd := fd + [("patient_id", TextPart(patientId.value))];
      }
      if imageFile.Some? {
        fd := fd + [("image", FilePart(imageFile.value))];
      }
    }

    /**
     * `handleSubmit`: a failed check alerts and sends nothing; otherwise the
     * form goes out once; an ok answer with a truthy body is handed to
     * `onCreated`, resets the form and closes the modal; anything else
     * alerts and keeps the form.
     */
    method Submit(access: Option<string>, editing: Option<int>, patientId: Option<string>, reply: Reply, today: Day)
      returns (sent: Option<Request>, alertText: Option<string>, created: Option<Json>, closed: bool)
      modifies this`title, this`description, this`date, this`location, this`tag,
               this`imageFile, this`previewUrl, this`revoked, this`submitting
      ensures Rejection(access, old(title), old(date)).Some? ==>
        && sent == None && alertText == Rejection(access, old(title), old(date))
        && created == None && !closed && State() == old(State()) && submitting == old(submitting)
      ensures Rejection(access, old(title), old(date)).None? ==>
        && sent == Some(Request(Target(editing).0, Target(editing).1, Session.Bearer(access.value),
                          FormFields(old(title), old(description), old(date), old(location), old(tag),
                                     patientId, editing.Some?, old(imageFile))))
        && !submitting
        && alertText == FailureAlert(editing.Some?, reply)
        && closed == Accepted(reply)
        && created == (if Accepted(reply) then reply.data else None)
        && (Accepted(reply) ==> Blank(today) && revoked == old(revoked) + Revoking(old(previewUrl)))
        && (!Accepted(reply) ==> State() == old(State()))
    {
      var rejected := Rejection(access, title, date);
      if rejected.Some? {
        return None, rejected, None, false;
      }
      ghost var form := FormFields(title, description, date, location, tag, patientId, editing.Some?, imageFile);
      submitting := true;
      var fd := BuildForm(patientId, editing.Some?);
      assert fd == form;
      var target := Target(editing);
      sent := Some(Request(target.0, target.1, Session.Bearer(access.value), fd));
      created, closed, alertText := None, false, None;
      match reply {
        case Answered(status, data) =>
          if Session.IsOk(status) && data.Some? && IsTruthy(data.value) {
            created := data;
            ResetForm(today);
            closed := true;
          } else {
            alertText := Some(ErrorMessage(editing.Some?, data));
          }
        case Threw(message) =>
          alertText := Some(if message != "" then message else UploadError);
      }
      submitting := false;
    }
  }

  datatype FormState = FormState(title: string, description: string, date: string, location: string, tag: string,
                                 imageFile: Option<File>, previewUrl: Option<string>, revoked: seq<string>)

  /** `res.ok && data`: the only answer the modal accepts. */
  predicate Accepted(reply: Reply) {
    reply.Answered? && Session.IsOk(reply.status) && reply.data.Some? && IsTruthy(reply.data.value)
  }

  /** The alert after the request: none when accepted, the composed message, or the thrown error's text. */
  function FailureAlert(editing: bool, reply: Reply): (r: Option<string>)
    ensures r.None? <==> Accepted(reply)
    ensures reply.Threw? ==> r == Some(if reply.message != "" then reply.message else UploadError)
    ensures reply.Answered? && !Accepted(reply) ==> r == Some(ErrorMessage(editing, reply.data))
  {
    if Accepted(reply) then None
    else if reply.Threw? then Some(if reply.message != "" then reply.message else UploadError)
    else Some(ErrorMessage(editing, reply.data))
  }
}
