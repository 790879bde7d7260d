/**
 * The new-maintenance-request page: a form edited one field at a time, a
 * toggle choosing whether the request is for a piece of equipment or a
 * work center, and the record the page inserts on submit.
 */
module NewRequestForm {
  import opened Wrappers

  /** The form's fields, all held as the text of their inputs. */
  datatype FormData = FormData(
    subject: string,
    maintenanceFor: string,
    equipmentId: string,
    workCenterId: string,
    categoryId: string,
    requestDate: string,
    maintenanceType: string,
    teamId: string,
    technician: string,
    scheduledDate: string,
    durationHours: string,
    priority: string,
    company: string,
    notes: string,
    instructions: string)

  /** The `name` of a form input, one per field of `FormData`. */
  datatype Field =
    | Subject | MaintenanceForField | EquipmentId | WorkCenterId | CategoryId | RequestDate
    | MaintenanceType | TeamId | Technician | ScheduledDate | DurationHours | Priority
    | Company | Notes | Instructions

  /** `formData[name]`. */
  function Get(form: FormData, field: Field): string {
    match field
    case Subject => form.subject
    case MaintenanceForField => form.maintenanceFor
    case EquipmentId => form.equipmentId
    case WorkCenterId => form.workCenterId
    case CategoryId => form.categoryId
    case RequestDate => form.requestDate
    case MaintenanceType => form.maintenanceType
    case TeamId => form.teamId
    case Technician => form.technician
    case ScheduledDate => form.scheduledDate
    case DurationHours => form.durationHours
    case Priority => form.priority
    case Company => form.company
    case Notes => form.notes
    case Instructions => form.instructions
  }

  /** `{ ...prev, [name]: value }`: the named field takes the value, every other field keeps its own. */
  function With(form: FormData, field: Field, value: string): (edited: FormData)
    ensures Get(edited, field) == value
    ensures forall other :: other != field ==> Get(edited, other) == Get(form, other)
  {
    match field
    case Subject => form.(subject := value)
    case MaintenanceForField => form.(maintenanceFor := value)
    case EquipmentId => form.(equipmentId := value)
    case WorkCenterId => form.(workCenterId := value)
    case CategoryId => form.(categoryId := value)
    case RequestDate => form.(requestDate := value)
    case MaintenanceType => form.(maintenanceType := value)
    case TeamId => form.(teamId := value)
    case Technician => form.(technician := value)
    case ScheduledDate => form.(scheduledDate := value)
    case DurationHours => form.(durationHours := value)
    case Priority => form.(priority := value)
    case Company => form.(company := value)
    case Notes => form.(notes := value)
    case Instructions => form.(instructions := value)
  }

  /** Two forms that agree on every field are the same form. */
  lemma FieldsDetermineForm(a: FormData, b: FormData)
    requires forall field :: Get(a, field) == Get(b, field)
    ensures a == b
  {
    assert Get(a, Subject) == Get(b, Subject) && Get(a, MaintenanceForField) == Get(b, MaintenanceForField);
    assert Get(a, EquipmentId) == Get(b, EquipmentId) && Get(a, WorkCenterId) == Get(b, WorkCenterId);
    assert Get(a, CategoryId) == Get(b, CategoryId) && Get(a, RequestDate) == Get(b, RequestDate);
    assert Get(a, MaintenanceType) == Get(b, MaintenanceType) && Get(a, TeamId) == Get(b, TeamId);
    assert Get(a, Technician) == Get(b, Technician) && Get(a, ScheduledDate) == Get(b, ScheduledDate);
    assert Get(a, DurationHours) == Get(b, DurationHours) && Get(a, Priority) == Get(b, Priority);
    assert Get(a, Company) == Get(b, Company) && Get(a, Notes) == Get(b, Notes);
    assert Get(a, Instructions) == Get(b, Instructions);
  }

  /** Writing back the value a field already has leaves the form as it was. */
  lemma WithCurrentValueIsIdentity(form: FormData, field: Field)
    ensures With(form, field, Get(form, field)) == form
  {
    FieldsDetermineForm(With(form, field, Get(form, field)), form);
  }

  /** The company every new request is filed under. */
  const DefaultCompany: string := "My Company (San Francisco)"

  /** The form as the page opens, `today` being the `YYYY-MM-DD` text of the current day. */
  function InitialForm(today: string): (form: FormData)
    ensures form.maintenanceType == "Corrective" && form.maintenanceFor == "Equipment"
    ensures form.subject == "" && form.equipmentId == "" && form.workCenterId == ""
    ensures form.categoryId == "" && form.teamId == "" && form.scheduledDate == "" && form.durationHours == ""
    ensures form.requestDate == today && form.company == DefaultCompany
  {
    FormData("", "Equipment", "", "", "", today, "Corrective", "", "", "", "", "", DefaultCompany, "", "")
  }

  /** What the request is raised against. */
  datatype Target = Equipment | WorkCenter

  /** The text the page stores for a target. */
  function TargetName(target: Target): string {
    match target
    case Equipment => "Equipment"
    case WorkCenter => "Work Center"
  }

  /**
   * The record inserted into `maintenance_requests`; `N` is the type of
   * the number `Number.parseFloat` returns.
   */
  datatype InsertPayload<N> = InsertPayload(
    subject: string,
    maintenanceType: string,
    maintenanceFor: string,
    equipmentId: Option<string>,
    workCenterId: Option<string>,
    categoryId: string,
    teamId: string,
    scheduledDate: string,
    durationHours: Option<N>,
    stage: string,
    userId: string)

  /** The record `handleSubmit` inserts for the signed-in user `userId`. */
  function Payload<N>(form: FormData, target: Target, userId: string, parseFloat: string -> N): InsertPayload<N> {
    InsertPayload(
      form.subject,
      form.maintenanceType,
      TargetName(target),
      if target == Equipment then Some(form.equipmentId) else None,
      if target == WorkCenter then Some(form.workCenterId) else None,
      form.categoryId,
      form.teamId,
      form.scheduledDate,
      if form.durationHours != "" then Some(parseFloat(form.durationHours)) else None,
      "New",
      userId)
  }

  /**
   * The inserted record carries the reference of the chosen target and
   * nothing for the other one, so exactly one of the two is set; it always
   * starts in stage New; the duration is absent exactly when its input is
   * empty; and the other sent fields are copied as typed, the scheduled
   * date whatever the maintenance type.
   */
  lemma PayloadShape<N>(form: FormData, target: Target, userId: string, parseFloat: string -> N)
    ensures var p := Payload(form, target, userId, parseFloat);
      && (p.equipmentId == if target == Equipment then Some(form.equipmentId) else None)
      && (p.workCenterId == if target == WorkCenter then Some(form.workCenterId) else None)
      && (p.equipmentId.Some? != p.workCenterId.Some?)
      && p.maintenanceFor == TargetName(target)
      && p.stage == "New"
      && (p.durationHours.None? <==> form.durationHours == "")
      && (p.durationHours.Some? ==> p.durationHours.value == parseFloat(form.durationHours))
      && p.subject == form.subject && p.maintenanceType == form.maintenanceType
      && p.categoryId == form.categoryId && p.teamId == form.teamId
      && p.scheduledDate == form.scheduledDate && p.userId == userId
  {
  }

  /**
   * The fields that are never sent: editing the technician, priority,
   * notes, instructions, request date, company or the form's own
   * `maintenance_for` text leaves the inserted record unchanged.
   */
  lemma UnsentFieldsDoNotReachPayload<N>(form: FormData, field: Field, value: string, target: Target, userId: string, parseFloat: string -> N)
    requires field in {Technician, Priority, Notes, Instructions, RequestDate, Company, MaintenanceForField}
    ensures Payload(With(form, field, value), target, userId, parseFloat) == Payload(form, target, userId, parseFloat)
  {
  }

  /**
   * Only the selection of the active target is sent: editing the other
   * target's selection leaves the inserted record unchanged.
   */
  lemma InactiveSelectionDoesNotReachPayload<N>(form: FormData, value: string, target: Target, userId: string, parseFloat: string -> N)
    ensures Payload(With(form, if target == Equipment then WorkCenterId else EquipmentId, value), target, userId, parseFloat)
         == Payload(form, target, userId, parseFloat)
  {
  }

  /** `handleSubmit`: without a signed-in user nothing is inserted. */
  function Submit<N>(form: FormData, target: Target, user: Option<string>, parseFloat: string -> N): (r: Result<InsertPayload<N>, string>)
    ensures r.Failure? <==> user.None?
    ensures r.Failure? ==> r.error == "Not authenticated"
    ensures r.Success? ==> r.value == Payload(form, target, user.value, parseFloat)
  {
    match user
    case None => Failure("Not authenticated")
    case Some(id) => Success(Payload(form, target, id, parseFloat))
  }

  /**
   * The browser's constraint validation: the subject input and the select
   * of the active target (the only one rendered) carry `required`, so the
   * form is submitted only when both hold a non-empty value.
   */
  predicate PassesRequiredFields(form: FormData, target: Target) {
    form.subject != "" && (if target == Equipment then form.equipmentId else form.workCenterId) != ""
  }

  /**
   * A press of Save: `None` when constraint validation blocks the submit
   * event, so that `handleSubmit` never runs; otherwise what `handleSubmit`
   * does.
   */
  function PressSave<N>(form: FormData, target: Target, user: Option<string>, parseFloat: string -> N): (r: Option<Result<InsertPayload<N>, string>>)
    ensures r.None? <==> form.subject == "" || (target == Equipment && form.equipmentId == "") || (target == WorkCenter && form.workCenterId == "")
    ensures r.Some? ==> r.value == Submit(form, target, user, parseFloat)
  {
    if PassesRequiredFields(form, target) then Some(Submit(form, target, user, parseFloat)) else None
  }

  /**
   * Every record that reaches the database has a subject and exactly one
   * target reference, which is non-empty and belongs to the chosen target.
   */
  lemma SavedRecordIsComplete<N>(form: FormData, target: Target, user: Option<string>, parseFloat: string -> N)
    requires PressSave(form, target, user, parseFloat).Some?
    requires PressSave(form, target, user, parseFloat).value.Success?
    ensures var p := PressSave(form, target, user, parseFloat).value.value;
      && p.subject != "" && p.userId == user.value
      && (target == Equipment ==> p.equipmentId.Some? && p.equipmentId.value != "" && p.workCenterId.None?)
      && (target == WorkCenter ==> p.workCenterId.Some? && p.workCenterId.value != "" && p.equipmentId.None?)
  {
    PayloadShape(form, target, user.value, parseFloat);
  }

  /** The page's state: the form and the Equipment / Work Center toggle. */
  class NewRequestPage {
    var formData: FormData
    var maintenanceFor: Target

    constructor (today: string)
      ensures formData == InitialForm(today) && maintenanceFor == Equipment
    {
      formData := InitialForm(today);
      maintenanceFor := Equipment;
    }

    /** `handleChange`, and the maintenance-type radio group for `MaintenanceType`. */
    method HandleChange(field: Field, value: string)
      modifies this
      ensures formData == With(old(formData), field, value)
      ensures maintenanceFor == old(maintenanceFor)
    {
      formData := With(formData, field, value);
    }

    /** The Equipment / Work Center buttons: only the toggle changes, so earlier selections are kept. */
    method SetMaintenanceFor(target: Target)
      modifies this
      ensures maintenanceFor == target
      ensures formData == old(formData)
    {
      maintenanceFor := target;
    }

    /** A press of Save on the current state: blocked by constraint validation, or the outcome of `handleSubmit`. */
    method Save<N>(user: Option<string>, parseFloat: string -> N) returns (r: Option<Result<InsertPayload<N>, string>>)
      ensures r == PressSave(formData, maintenanceFor, user, parseFloat)
    {
      r := PressSave(formData, maintenanceFor, user, parseFloat);
    }
  }

  /**
   * Switching to Work Center with no work center chosen blocks Save;
   * switching back keeps the chosen equipment, and the record sent is as
   * before.
   */
  method ToggleScenario(today: string, parseFloat: string -> real) {
    var page := new NewRequestPage(today);
    page.HandleChange(Subject, "Pump leak");
    page.HandleChange(EquipmentId, "pump-1");
    var before := page.Save(Some("u1"), parseFloat);
    assert before.Some? && before.value.Success?;
    page.SetMaintenanceFor(WorkCenter);
    var during := page.Save(Some("u1"), parseFloat);
    assert during.None?;
    page.SetMaintenanceFor(Equipment);
    var after := page.Save(Some("u1"), parseFloat);
    assert after == before && after.value.value.equipmentId == Some("pump-1");
  }
}
