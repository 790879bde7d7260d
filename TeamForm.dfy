/**
 * The maintenance-team form: name, description, company and a list of
 * member names edited with an add box (trimmed, no duplicates) and a remove
 * button per member, normalised before it is saved.
 */
module TeamForm {
  import opened Wrappers
  import opened Sequences
  import opened JsText

  /** The company a team belongs to unless it says otherwise. */
  const DefaultCompany: string := "My Company (San Francisco)"

  /** The form's state apart from the member box. */
  datatype TeamFormData = TeamFormData(name: string, description: string, teamMembers: seq<string>, company: string)

  /** The team being edited, as loaded; a missing column is `None`. */
  datatype InitialTeam = InitialTeam(
    id: Option<string>,
    name: Option<string>,
    description: Option<string>,
    teamMembers: Option<seq<string>>,
    company: Option<string>)

  /** `value || fallback` for text: an absent or empty text gives the fallback. */
  function TextOr(value: Option<string>, fallback: string): (r: string)
    ensures r == fallback <==> value.None? || value.value == "" || value.value == fallback
    ensures r != fallback ==> value == Some(r)
  {
    if value.Some? && value.value != "" then value.value else fallback
  }

  /**
   * The form's starting state: the loaded team's fields, with an absent or
   * empty name or description as empty text, absent members as no members
   * (a loaded list is kept even when empty, an array being truthy), and an
   * absent or empty company as the default company.
   */
  function Defaults(initialData: Option<InitialTeam>): (form: TeamFormData)
    ensures initialData.None? ==> form == TeamFormData("", "", [], DefaultCompany)
    ensures initialData.Some? && initialData.value.teamMembers.Some? ==> form.teamMembers == initialData.value.teamMembers.value
    ensures initialData.Some? && initialData.value.teamMembers.None? ==> form.teamMembers == []
    ensures initialData.Some? ==> form.name == TextOr(initialData.value.name, "")
    ensures initialData.Some? ==> form.description == TextOr(initialData.value.description, "")
    ensures initialData.Some? ==> form.company == TextOr(initialData.value.company, DefaultCompany)
    ensures form.company != ""
  {
    match initialData
    case None => TeamFormData("", "", [], DefaultCompany)
    case Some(team) =>
      TeamFormData(
        TextOr(team.name, ""),
        TextOr(team.description, ""),
        if team.teamMembers.Some? then team.teamMembers.value else [],
        TextOr(team.company, DefaultCompany))
  }

  /** Whether `handleAddMember` adds: the trimmed input is not empty and not yet a member. */
  predicate CanAdd(members: seq<string>, input: string) {
    Trim(input) != "" && Trim(input) !in members
  }

  /** The member list after `handleAddMember`. */
  function AddMember(members: seq<string>, input: string): (r: seq<string>)
    ensures CanAdd(members, input) ==> r == members + [Trim(input)]
    ensures !CanAdd(members, input) ==> r == members
  {
    if CanAdd(members, input) then members + [Trim(input)] else members
  }

  /** `team_members.filter((member) => member !== name)`. */
  function RemoveMember(members: seq<string>, name: string): (r: seq<string>)
    ensures forall m :: m in r <==> m in members && m != name
  {
    Filter(members, (m: string) => m != name)
  }

  /** Adding keeps the members in order and appends at most the trimmed input, never a blank name. */
  lemma AddAppendsAtEnd(members: seq<string>, input: string)
    ensures members <= AddMember(members, input)
    ensures |AddMember(members, input)| <= |members| + 1
    ensures forall m :: m in AddMember(members, input) && m !in members ==> m == Trim(input) && m != ""
  {
  }

  /** A duplicate-free member list stays duplicate-free after an add. */
  lemma AddKeepsNoDuplicates(members: seq<string>, input: string)
    requires NoDuplicates(members)
    ensures NoDuplicates(AddMember(members, input))
  {
    if CanAdd(members, input) {
      var r := AddMember(members, input);
      forall i, j | 0 <= i < j < |r| ensures r[i] != r[j] {
        if j == |members| {
          assert r[i] == members[i];
        }
      }
    }
  }

  /** Adding the same input twice is adding it once. */
  lemma AddTwiceIsAddOnce(members: seq<string>, input: string)
    ensures AddMember(AddMember(members, input), input) == AddMember(members, input)
  {
    if CanAdd(members, input) {
      assert Trim(input) in AddMember(members, input);
    }
  }

  /** Removing keeps the remaining members in order, drops every occurrence of the name, and keeps a list duplicate-free. */
  lemma RemoveKeepsOthersInOrder(members: seq<string>, name: string) returns (idx: seq<nat>)
    ensures Selects(members, idx, RemoveMember(members, name))
    ensures forall i :: 0 <= i < |members| && members[i] != name ==> i in idx
    ensures NoDuplicates(members) ==> NoDuplicates(RemoveMember(members, name))
  {
    idx := FilterIsOrderedSelection(members, (m: string) => m != name);
    if NoDuplicates(members) {
      FilterNoDuplicates(members, (m: string) => m != name);
    }
  }

  /** Adding a new name and then removing it gives back the original list. */
  lemma AddThenRemoveRestores(members: seq<string>, input: string)
    requires CanAdd(members, input)
    ensures RemoveMember(AddMember(members, input), Trim(input)) == members
  {
    var name := Trim(input);
    var keep := (m: string) => m != name;
    FilterConcat(members, [name], keep);
    FilterKeepingAll(members, keep);
    assert Filter([name], keep) == [];
  }

  /** The row written to `maintenance_teams`: empty text and an empty member list become `null`. */
  datatype TeamRow = TeamRow(name: string, description: Option<string>, teamMembers: Option<seq<string>>, company: Option<string>)

  /** `cleanedData`. */
  function CleanedData(form: TeamFormData): (row: TeamRow)
    ensures row.name == form.name
    ensures row.description.None? <==> form.description == ""
    ensures row.teamMembers.None? <==> form.teamMembers == []
    ensures row.company.None? <==> form.company == ""
    ensures row.description.Some? ==> row.description.value == form.description
    ensures row.teamMembers.Some? ==> row.teamMembers.value == form.teamMembers
    ensures row.company.Some? ==> row.company.value == form.company
  {
    TeamRow(
      form.name,
      if form.description != "" then Some(form.description) else None,
      if |form.teamMembers| > 0 then Some(form.teamMembers) else None,
      if form.company != "" then Some(form.company) else None)
  }

  /** A saved row loaded back as the team to edit. */
  function Reloaded(id: string, row: TeamRow): InitialTeam {
    InitialTeam(Some(id), Some(row.name), row.description, row.teamMembers, row.company)
  }

  /**
   * Saving a form and opening the saved team again gives back the same form,
   * as long as the company was not cleared.
   */
  lemma SaveThenEditRestoresForm(id: string, form: TeamFormData)
    requires form.company != ""
    ensures Defaults(Some(Reloaded(id, CleanedData(form)))) == form
  {
  }

  /** A cleared company is saved as `null` and comes back as the default company. */
  lemma ClearedCompanyComesBackAsDefault(id: string, form: TeamFormData)
    requires form.company == ""
    ensures Defaults(Some(Reloaded(id, CleanedData(form)))) == form.(company := DefaultCompany)
  {
  }

  /** The write `handleSubmit` makes. */
  datatype TeamWrite = UpdateTeam(id: string, row: TeamRow) | InsertTeam(row: TeamRow, userId: string)

  /**
   * `handleSubmit`: an update of the loaded team when it has an id, an
   * insert for the signed-in user otherwise, and an error when nobody is
   * signed in.
   */
  function Submit(form: TeamFormData, initialData: Option<InitialTeam>, user: Option<string>): (r: Result<TeamWrite, string>)
    ensures r.Failure? <==> user.None?
    ensures r.Failure? ==> r.error == "User not authenticated"
    ensures r.Success? ==> r.value.row == CleanedData(form)
    ensures r.Success? ==> (r.value.UpdateTeam? <==> initialData.Some? && initialData.value.id.Some? && initialData.value.id.value != "")
    ensures r.Success? && r.value.UpdateTeam? ==> r.value.id == initialData.value.id.value
    ensures r.Success? && r.value.InsertTeam? ==> r.value.userId == user.value
  {
    if user.None? then Failure("User not authenticated")
    else if initialData.Some? && initialData.value.id.Some? && initialData.value.id.value != "" then
      Success(UpdateTeam(initialData.value.id.value, CleanedData(form)))
    else Success(InsertTeam(CleanedData(form), user.value))
  }

  /**
   * A press of Save Team: the name input carries `required`, so the
   * browser's constraint validation blocks the submit event (`None`) while
   * the name is empty; otherwise what `handleSubmit` does.
   */
  function PressSave(form: TeamFormData, initialData: Option<InitialTeam>, user: Option<string>): (r: Option<Result<TeamWrite, string>>)
    ensures r.None? <==> form.name == ""
    ensures r.Some? ==> r.value == Submit(form, initialData, user)
  {
    if form.name != "" then Some(Submit(form, initialData, user)) else None
  }

  /** Every team row that reaches the database has a name. */
  lemma SavedTeamHasName(form: TeamFormData, initialData: Option<InitialTeam>, user: Option<string>)
    requires PressSave(form, initialData, user).Some? && PressSave(form, initialData, user).value.Success?
    ensures PressSave(form, initialData, user).value.value.row.name != ""
  {
  }

  /** The fields `handleChange` edits. */
  datatype TeamField = Name | Description | Company

  /** The team form component's state. */
  class TeamFormState {
    var formData: TeamFormData
    var memberInput: string
    const initialData: Option<InitialTeam>

    constructor (initialData: Option<InitialTeam>)
      ensures this.initialData == initialData
      ensures formData == Defaults(initialData) && memberInput == ""
    {
      this.initialData := initialData;
      formData := Defaults(initialData);
      memberInput := "";
    }

    /** `handleChange` on the name, description or company input. */
    method HandleChange(field: TeamField, value: string)
      modifies this
      ensures formData == match field
        case Name => old(formData).(name := value)
        case Description => old(formData).(description := value)
        case Company => old(formData).(company := value)
      ensures memberInput == old(memberInput)
    {
      match field
      case Name => formData := formData.(name := value);
      case Description => formData := formData.(description := value);
      case Company => formData := formData.(company := value);
    }

    /** Typing in the member box. */
    method SetMemberInput(value: string)
      modifies this
      ensures memberInput == value && formData == old(formData)
    {
      memberInput := value;
    }

    /**
     * `handleAddMember`: when the trimmed input is non-empty and not yet a
     * member it is appended and the box is cleared; otherwise nothing changes.
     */
    method HandleAddMember()
      modifies this
      ensures formData == old(formData).(teamMembers := AddMember(old(formData.teamMembers), old(memberInput)))
      ensures memberInput == if CanAdd(old(formData.teamMembers), old(memberInput)) then "" else old(memberInput)
    {
      var trimmed := Trim(memberInput);
      if trimmed != "" && trimmed !in formData.teamMembers {
        formData := formData.(teamMembers := formData.teamMembers + [trimmed]);
        memberInput := "";
      }
    }

    /** `handleRemoveMember`: every occurrence of the name goes. */
    method HandleRemoveMember(memberToRemove: string)
      modifies this
      ensures formData == old(formData).(teamMembers := RemoveMember(old(formData.teamMembers), memberToRemove))
      ensures memberInput == old(memberInput)
    {
      formData := formData.(teamMembers := RemoveMember(formData.teamMembers, memberToRemove));
    }

    /** A press of Save Team on the current state: blocked by constraint validation, or the outcome of `handleSubmit`. */
    method Save(user: Option<string>) returns (r: Option<Result<TeamWrite, string>>)
      ensures r == PressSave(formData, initialData, user)
    {
      r := PressSave(formData, initialData, user);
    }
  }
}
