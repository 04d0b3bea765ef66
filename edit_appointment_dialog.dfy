/** The edit form of one appointment (src/components/EditAppointmentDialog.tsx):
    only plate, colour and notes can be changed. */
module EditAppointmentDialog {
  import opened Seqs
  import opened Text
  import opened Index
  import AppointmentDialog

  /** The three editable texts. */
  datatype EditForm = EditForm(plateNumber: string, color: string, notes: string)

  /** The form's initial state: the record's values, an absent one shown empty. */
  function InitialEditForm(apt: Appointment): (f: EditForm)
    ensures apt.plateNumber.Some? ==> f.plateNumber == apt.plateNumber.value
    ensures apt.plateNumber.None? ==> f.plateNumber == ""
    ensures apt.color.Some? ==> f.color == apt.color.value
    ensures apt.color.None? ==> f.color == ""
    ensures apt.notes.Some? ==> f.notes == apt.notes.value
    ensures apt.notes.None? ==> f.notes == ""
  {
    EditForm(OrEmpty(apt.plateNumber), OrEmpty(apt.color), OrEmpty(apt.notes))
  }

  /** Typing in the plate field stores the text upper-cased. */
  function SetPlate(form: EditForm, text: string): (f: EditForm)
    ensures f.plateNumber == Upper(text)
    ensures |f.plateNumber| == |text| && Upper(f.plateNumber) == f.plateNumber
    ensures f.color == form.color && f.notes == form.notes
  {
    UpperIdempotent(text);
    form.(plateNumber := Upper(text))
  }

  /** `handleSave`: the record with its three optional texts replaced, an empty
      text saved as absent. */
  function SaveEdit(apt: Appointment, form: EditForm): Appointment
  {
    apt.(plateNumber := AbsentIfEmpty(form.plateNumber), color := AbsentIfEmpty(form.color),
         notes := AbsentIfEmpty(form.notes))
  }

  /** The saved record keeps id, date, time, car and status; each optional text
      is absent exactly when the form's text is empty and otherwise is that text. */
  lemma SaveEditSpec(apt: Appointment, form: EditForm)
    ensures var r := SaveEdit(apt, form);
      r.id == apt.id && r.date == apt.date && r.time == apt.time && r.carBrand == apt.carBrand
      && r.carModel == apt.carModel && r.status == apt.status
    ensures var r := SaveEdit(apt, form);
      (r.plateNumber.None? <==> form.plateNumber == "") && (r.color.None? <==> form.color == "")
      && (r.notes.None? <==> form.notes == "")
    ensures var r := SaveEdit(apt, form);
      OrEmpty(r.plateNumber) == form.plateNumber && OrEmpty(r.color) == form.color && OrEmpty(r.notes) == form.notes
  {
  }

  /** Saving without edits gives back the record, except that a present empty
      text becomes absent; a record without empty texts comes back unchanged. */
  lemma SaveUnedited(apt: Appointment)
    ensures SaveEdit(apt, InitialEditForm(apt)) ==
      apt.(plateNumber := if apt.plateNumber == Some("") then None else apt.plateNumber,
           color := if apt.color == Some("") then None else apt.color,
           notes := if apt.notes == Some("") then None else apt.notes)
    ensures apt.plateNumber != Some("") && apt.color != Some("") && apt.notes != Some("") ==>
      SaveEdit(apt, InitialEditForm(apt)) == apt
  {
    AbsentIfEmptyOfOrEmpty(apt.plateNumber);
    AbsentIfEmptyOfOrEmpty(apt.color);
    AbsentIfEmptyOfOrEmpty(apt.notes);
  }

  /** A record made by the new-appointment form opens in the edit form with the
      texts that were typed, and saving it unedited changes nothing. */
  lemma NewRecordEditsCleanly(form: AppointmentDialog.Form, id: string, date: string)
    requires AppointmentDialog.CanSave(form)
    ensures var r := AppointmentDialog.Save(form, id, date).value;
      InitialEditForm(r) == EditForm(form.plateNumber, form.color, form.notes)
      && SaveEdit(r, InitialEditForm(r)) == r
  {
    var r := AppointmentDialog.Save(form, id, date).value;
    SaveUnedited(r);
  }
}
