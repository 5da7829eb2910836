/**
 * The ActivityForm component: a three-field draft that is edited one field
 * at a time and, on submit, checked for empty fields and appended to the
 * stored activity list as a new record.
 *
 * The browser store is modelled by fields: `activities` is the list stored
 * under "activities", `savedDraft` the draft stored under
 * "activityFormData". `parseFloat` and the current time
 * (`new Date().toISOString()`) are parameters of the submit.
 */
module ActivityForm {
  import opened Activities

  /** The form's text fields; an empty category means none is selected. */
  datatype FormData = FormData(name: string, category: string, carbonValue: string)

  /** The `name` attribute of the input that changed. */
  datatype Field = Name | Category | CarbonValue

  const EmptyForm := FormData("", "", "")

  function Get(f: FormData, field: Field): string
  {
    match field
    case Name => f.name
    case Category => f.category
    case CarbonValue => f.carbonValue
  }

  /** `{ ...prev, [name]: value }`: the named field takes the value, the others keep theirs. */
  function SetField(f: FormData, field: Field, value: string): (g: FormData)
    ensures Get(g, field) == value
    ensures forall other :: other != field ==> Get(g, other) == Get(f, other)
  {
    match field
    case Name => f.(name := value)
    case Category => f.(category := value)
    case CarbonValue => f.(carbonValue := value)
  }

  /** The submit check: no field is the empty string. Nothing else is checked. */
  predicate IsComplete(f: FormData)
  {
    f.name != "" && f.category != "" && f.carbonValue != ""
  }

  lemma IsCompleteIffNoEmptyField(f: FormData)
    ensures IsComplete(f) <==> forall field :: Get(f, field) != ""
  {
    assert Get(f, Name) == f.name && Get(f, Category) == f.category && Get(f, CarbonValue) == f.carbonValue;
  }

  class ActivityFormState {
    var formData: FormData
    var activities: seq<Activity>
    var savedDraft: Option<FormData>
    /** How many "activityUpdated" events have been dispatched. */
    var updatesDispatched: nat

    /** The initial state: the saved draft if there is one, else an empty form. */
    constructor (storedActivities: seq<Activity>, savedDraft: Option<FormData>)
      ensures formData == if savedDraft.Some? then savedDraft.value else EmptyForm
      ensures activities == storedActivities && this.savedDraft == savedDraft && updatesDispatched == 0
    {
      formData := if savedDraft.Some? then savedDraft.value else EmptyForm;
      activities := storedActivities;
      this.savedDraft := savedDraft;
      updatesDispatched := 0;
    }

    /** The effect that runs whenever the form changes: save the draft. */
    method PersistDraft()
      modifies this
      ensures savedDraft == Some(formData)
      ensures formData == old(formData) && activities == old(activities)
      ensures updatesDispatched == old(updatesDispatched)
    {
      savedDraft := Some(formData);
    }

    /** `handleChange`: only the field named by the event changes. */
    method HandleChange(field: Field, value: string)
      modifies this
      ensures Get(formData, field) == value
      ensures forall other :: other != field ==> Get(formData, other) == Get(old(formData), other)
      ensures activities == old(activities) && savedDraft == old(savedDraft)
      ensures updatesDispatched == old(updatesDispatched)
    {
      formData := SetField(formData, field, value);
    }

    /**
     * `handleSubmit`. With an empty field nothing changes and `saved` is
     * false. Otherwise the stored list gains exactly one record at its end
     * (name and category from the form, the parsed value, the given time),
     * the form is reset to empty fields, the saved draft is removed and one
     * update event is dispatched.
     */
    method HandleSubmit(parseFloat: string -> real, now: string) returns (saved: bool)
      modifies this
      ensures saved <==> IsComplete(old(formData))
      ensures !saved ==>
        && activities == old(activities) && formData == old(formData)
        && savedDraft == old(savedDraft) && updatesDispatched == old(updatesDispatched)
      ensures saved ==>
        && |activities| == |old(activities)| + 1
        && activities[..|old(activities)|] == old(activities)
        && activities[|old(activities)|] ==
             Activity(old(formData).name, old(formData).category, parseFloat(old(formData).carbonValue), now)
        && formData == EmptyForm && savedDraft == None
        && updatesDispatched == old(updatesDispatched) + 1
    {
      if formData.name == "" || formData.category == "" || formData.carbonValue == "" {
        return false;
      }
      var newActivity := Activity(formData.name, formData.category, parseFloat(formData.carbonValue), now);
      var updatedActivities := activities + [newActivity];
      activities := updatedActivities;
      formData := EmptyForm;
      savedDraft := None;
      updatesDispatched := updatesDispatched + 1;
      saved := true;
    }
  }

  /**
   * A first submission on a fresh form: typing "Commute", choosing
   * "Transportation" and entering "2.5" saves exactly one record, with the
   * parsed value and the given time, and leaves an empty form.
   */
  method SubmitCommute(parseFloat: string -> real, now: string) returns (form: ActivityFormState, saved: bool)
    ensures saved
    ensures form.activities == [Activity("Commute", "Transportation", parseFloat("2.5"), now)]
    ensures form.formData == EmptyForm && form.savedDraft == None && form.updatesDispatched == 1
  {
    form := new ActivityFormState([], None);
    form.HandleChange(Name, "Commute");
    form.HandleChange(Category, "Transportation");
    form.HandleChange(CarbonValue, "2.5");
    assert form.formData == FormData("Commute", "Transportation", "2.5");
    saved := form.HandleSubmit(parseFloat, now);
  }
}
