/**
  The form record of the event wizard and the updates its field callbacks
  make. Each callback builds a new record from the old one with exactly one
  top-level field replaced; the gender flags, objectives and attachments are
  updated through helpers that keep the rest of the nested value.
  Attachments are file handles whose contents the form never inspects, so
  they are of an opaque type `File`.
 */
module EventFields {
  import opened IndexedSeq

  /** A browser file handle; the form only stores and drops these. */
  type File

  datatype LocationType = InCampus | OutCampus

  datatype Gender = Male | Female

  /** Two independent flags: both, one or neither may be set. */
  datatype GenderRestriction = GenderRestriction(male: bool, female: bool)

  datatype FormData = FormData(
    title: string,
    description: string,
    category: string,
    staffId: string,
    presenter: string,
    startDate: string,
    endDate: string,
    startTime: string,
    endTime: string,
    duration: string,
    locationType: LocationType,
    selectedHall: string,
    maxParticipants: string,
    participationType: string,
    targetAudience: string,
    genderRestriction: GenderRestriction,
    objectives: seq<string>,
    attachments: seq<File>,
    notes: string)

  /** The text fields of the record, each set whole by one callback. */
  datatype TextField =
    | Title | Description | Category | StaffId | Presenter
    | StartDate | EndDate | StartTime | EndTime | Duration
    | SelectedHall | MaxParticipants | ParticipationType | TargetAudience
    | Notes

  /** Every top-level field of the record. */
  datatype Field =
    | Text(text: TextField)
    | LocationTypeField
    | GenderRestrictionField
    | ObjectivesField
    | AttachmentsField

  /** Reads a text field of the record. */
  function TextOf(d: FormData, f: TextField): string
  {
    match f
    case Title => d.title
    case Description => d.description
    case Category => d.category
    case StaffId => d.staffId
    case Presenter => d.presenter
    case StartDate => d.startDate
    case EndDate => d.endDate
    case StartTime => d.startTime
    case EndTime => d.endTime
    case Duration => d.duration
    case SelectedHall => d.selectedHall
    case MaxParticipants => d.maxParticipants
    case ParticipationType => d.participationType
    case TargetAudience => d.targetAudience
    case Notes => d.notes
  }

  /** Reads one of the two gender flags. */
  function Flag(g: GenderRestriction, which: Gender): bool
  {
    match which
    case Male => g.male
    case Female => g.female
  }

  function OtherGender(which: Gender): Gender
  {
    match which
    case Male => Female
    case Female => Male
  }

  /** `a` and `b` agree on every field except possibly `changed`: the frame
      of a single-field update. */
  ghost predicate AgreeExcept(a: FormData, b: FormData, changed: Field)
  {
    && (forall g: TextField :: Text(g) != changed ==> TextOf(a, g) == TextOf(b, g))
    && (changed != LocationTypeField ==> a.locationType == b.locationType)
    && (changed != GenderRestrictionField ==> a.genderRestriction == b.genderRestriction)
    && (changed != ObjectivesField ==> a.objectives == b.objectives)
    && (changed != AttachmentsField ==> a.attachments == b.attachments)
  }

  /** Two records that agree on every text field and on every other field
      are the same record. */
  lemma {:induction false} AgreeEverywhere(a: FormData, b: FormData)
    requires forall g: TextField :: TextOf(a, g) == TextOf(b, g)
    requires a.locationType == b.locationType
    requires a.genderRestriction == b.genderRestriction
    requires a.objectives == b.objectives
    requires a.attachments == b.attachments
    ensures a == b
  {
    assert TextOf(a, Title) == TextOf(b, Title);
    assert TextOf(a, Description) == TextOf(b, Description);
    assert TextOf(a, Category) == TextOf(b, Category);
    assert TextOf(a, StaffId) == TextOf(b, StaffId);
    assert TextOf(a, Presenter) == TextOf(b, Presenter);
    assert TextOf(a, StartDate) == TextOf(b, StartDate);
    assert TextOf(a, EndDate) == TextOf(b, EndDate);
    assert TextOf(a, StartTime) == TextOf(b, StartTime);
    assert TextOf(a, EndTime) == TextOf(b, EndTime);
    assert TextOf(a, Duration) == TextOf(b, Duration);
    assert TextOf(a, SelectedHall) == TextOf(b, SelectedHall);
    assert TextOf(a, MaxParticipants) == TextOf(b, MaxParticipants);
    assert TextOf(a, ParticipationType) == TextOf(b, ParticipationType);
    assert TextOf(a, TargetAudience) == TextOf(b, TargetAudience);
    assert TextOf(a, Notes) == TextOf(b, Notes);
  }

  /** The record the form starts with. */
  function Initial(): (d: FormData)
    ensures forall f: TextField :: TextOf(d, f) == (if f == ParticipationType then "yes" else "")
    ensures d.locationType == InCampus
    ensures !Flag(d.genderRestriction, Male) && !Flag(d.genderRestriction, Female)
    ensures |d.objectives| == 0 && |d.attachments| == 0
  {
    FormData(
      title := "",
      description := "",
      category := "",
      staffId := "",
      presenter := "",
      startDate := "",
      endDate := "",
      startTime := "",
      endTime := "",
      duration := "",
      locationType := InCampus,
      selectedHall := "",
      maxParticipants := "",
      participationType := "yes",
      targetAudience := "",
      genderRestriction := GenderRestriction(male := false, female := false),
      objectives := [],
      attachments := [],
      notes := "")
  }

  /** The callback of one text field: `{ ...formData, field: value }`. */
  function SetText(d: FormData, f: TextField, v: string): (r: FormData)
    ensures TextOf(r, f) == v
    ensures AgreeExcept(d, r, Text(f))
  {
    match f
    case Title => d.(title := v)
    case Description => d.(description := v)
    case Category => d.(category := v)
    case StaffId => d.(staffId := v)
    case Presenter => d.(presenter := v)
    case StartDate => d.(startDate := v)
    case EndDate => d.(endDate := v)
    case StartTime => d.(startTime := v)
    case EndTime => d.(endTime := v)
    case Duration => d.(duration := v)
    case SelectedHall => d.(selectedHall := v)
    case MaxParticipants => d.(maxParticipants := v)
    case ParticipationType => d.(participationType := v)
    case TargetAudience => d.(targetAudience := v)
    case Notes => d.(notes := v)
  }

  /** A text-field edit is fully determined by its contract: the only record
      that holds `v` in field `f` and agrees with `d` everywhere else is
      `SetText(d, f, v)`. */
  lemma {:induction false} SetTextDetermined(d: FormData, r: FormData, f: TextField, v: string)
    requires TextOf(r, f) == v
    requires AgreeExcept(d, r, Text(f))
    ensures r == SetText(d, f, v)
  {
    var x := SetText(d, f, v);
    forall g: TextField ensures TextOf(r, g) == TextOf(x, g) {
      if g != f {
        assert Text(g) != Text(f);
      }
    }
    AgreeEverywhere(r, x);
  }

  /** Of two edits of the same text field, the later one wins. */
  lemma SetTextLastWins(d: FormData, f: TextField, a: string, b: string)
    ensures SetText(SetText(d, f, a), f, b) == SetText(d, f, b)
  {
  }

  /** Edits of two different text fields do not interfere: either order
      gives the same record. */
  lemma SetTextCommutes(d: FormData, f: TextField, a: string, g: TextField, b: string)
    requires f != g
    ensures SetText(SetText(d, f, a), g, b) == SetText(SetText(d, g, b), f, a)
  {
  }

  /** Writing back the value a text field already holds changes nothing. */
  lemma SetTextSameValue(d: FormData, f: TextField)
    ensures SetText(d, f, TextOf(d, f)) == d
  {
  }

  /** The location-type callback. */
  function SetLocationType(d: FormData, t: LocationType): (r: FormData)
    ensures r.locationType == t
    ensures AgreeExcept(d, r, LocationTypeField)
  {
    d.(locationType := t)
  }

  /** The gender-restriction callback: replaces the named flag inside the
      nested record and keeps the other one. */
  function SetGender(d: FormData, which: Gender, v: bool): (r: FormData)
    ensures Flag(r.genderRestriction, which) == v
    ensures Flag(r.genderRestriction, OtherGender(which)) == Flag(d.genderRestriction, OtherGender(which))
    ensures AgreeExcept(d, r, GenderRestrictionField)
  {
    var g := d.genderRestriction;
    d.(genderRestriction := match which
                             case Male => g.(male := v)
                             case Female => g.(female := v))
  }

  /** Adding an objective puts it after all existing ones. */
  function AddObjective(d: FormData, o: string): (r: FormData)
    ensures |r.objectives| == |d.objectives| + 1
    ensures r.objectives[..|d.objectives|] == d.objectives
    ensures r.objectives[|d.objectives|] == o
    ensures AgreeExcept(d, r, ObjectivesField)
  {
    d.(objectives := d.objectives + [o])
  }

  /** Removing an objective by position; an index that names no objective
      leaves the record as it was. */
  function RemoveObjective(d: FormData, k: int): (r: FormData)
    ensures 0 <= k < |d.objectives| ==> r.objectives == d.objectives[..k] + d.objectives[k + 1..]
    ensures !(0 <= k < |d.objectives|) ==> r == d
    ensures AgreeExcept(d, r, ObjectivesField)
  {
    d.(objectives := FilterOutIndex(d.objectives, k))
  }

  /** Adding a batch of attachments puts the whole batch, in its own order,
      after all existing attachments. */
  function AddAttachments(d: FormData, files: seq<File>): (r: FormData)
    ensures |r.attachments| == |d.attachments| + |files|
    ensures r.attachments[..|d.attachments|] == d.attachments
    ensures r.attachments[|d.attachments|..] == files
    ensures AgreeExcept(d, r, AttachmentsField)
  {
    d.(attachments := d.attachments + files)
  }

  /** Removing an attachment by position; an index that names no attachment
      leaves the record as it was. */
  function RemoveAttachment(d: FormData, k: int): (r: FormData)
    ensures 0 <= k < |d.attachments| ==> r.attachments == d.attachments[..k] + d.attachments[k + 1..]
    ensures !(0 <= k < |d.attachments|) ==> r == d
    ensures AgreeExcept(d, r, AttachmentsField)
  {
    d.(attachments := FilterOutIndex(d.attachments, k))
  }

  /** Removing the objective just added gives back the record it was added to. */
  lemma RemoveAddedObjective(d: FormData, o: string)
    ensures RemoveObjective(AddObjective(d, o), |d.objectives|) == d
  {
  }

  /** The change a sub-form reports through one of its callbacks. */
  datatype Event =
    | TextChange(field: TextField, value: string)
    | LocationTypeChange(locationType: LocationType)
    | GenderRestrictionChange(gender: Gender, flag: bool)
    | ObjectiveAdd(objective: string)
    | ObjectiveRemove(index: int)
    | AttachmentsAdd(files: seq<File>)
    | AttachmentRemove(index: int)

  /** The one field an event may change. */
  function Target(e: Event): Field
  {
    match e
    case TextChange(f, _) => Text(f)
    case LocationTypeChange(_) => LocationTypeField
    case GenderRestrictionChange(_, _) => GenderRestrictionField
    case ObjectiveAdd(_) => ObjectivesField
    case ObjectiveRemove(_) => ObjectivesField
    case AttachmentsAdd(_) => AttachmentsField
    case AttachmentRemove(_) => AttachmentsField
  }

  /** Runs the callback an event comes from. The target field takes the
      event's effect and no other field changes. */
  function Apply(d: FormData, e: Event): (r: FormData)
    ensures AgreeExcept(d, r, Target(e))
    ensures e.TextChange? ==> TextOf(r, e.field) == e.value
    ensures e.LocationTypeChange? ==> r.locationType == e.locationType
    ensures e.GenderRestrictionChange? ==>
              && Flag(r.genderRestriction, e.gender) == e.flag
              && Flag(r.genderRestriction, OtherGender(e.gender)) == Flag(d.genderRestriction, OtherGender(e.gender))
    ensures e.ObjectiveAdd? ==> r.objectives == d.objectives + [e.objective]
    ensures e.ObjectiveRemove? && 0 <= e.index < |d.objectives| ==>
              r.objectives == d.objectives[..e.index] + d.objectives[e.index + 1..]
    ensures e.ObjectiveRemove? && !(0 <= e.index < |d.objectives|) ==> r == d
    ensures e.AttachmentsAdd? ==> r.attachments == d.attachments + e.files
    ensures e.AttachmentRemove? && 0 <= e.index < |d.attachments| ==>
              r.attachments == d.attachments[..e.index] + d.attachments[e.index + 1..]
    ensures e.AttachmentRemove? && !(0 <= e.index < |d.attachments|) ==> r == d
  {
    match e
    case TextChange(f, v) => SetText(d, f, v)
    case LocationTypeChange(t) => SetLocationType(d, t)
    case GenderRestrictionChange(g, v) => SetGender(d, g, v)
    case ObjectiveAdd(o) => AddObjective(d, o)
    case ObjectiveRemove(k) => RemoveObjective(d, k)
    case AttachmentsAdd(files) => AddAttachments(d, files)
    case AttachmentRemove(k) => RemoveAttachment(d, k)
  }
}
