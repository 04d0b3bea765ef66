/** The new-appointment form (src/components/AppointmentDialog.tsx): its
    fields, the models offered for the chosen brand, the field updates with a
    rule attached, and the record `handleSave` builds. The id, drawn from the
    clock and a random number in the source, is a parameter. */
module AppointmentDialog {
  import opened Seqs
  import opened Text
  import opened Index

  /** The form's state: five text fields and the time. */
  datatype Form = Form(carBrand: string, carModel: string, plateNumber: string, color: string, notes: string, time: string)

  /** `selectedTime || '09:00'` */
  function DefaultTime(selectedTime: Option<string>): (t: string)
    ensures t != ""
    ensures Truthy(selectedTime) ==> t == selectedTime.value
  {
    if Truthy(selectedTime) then selectedTime.value else "09:00"
  }

  /** The state a cleared form has: every text empty, the time at its default. */
  function ClearedForm(selectedTime: Option<string>): Form
  {
    Form("", "", "", "", "", DefaultTime(selectedTime))
  }

  /** `availableModels`: the models of the first catalogue entry with the chosen
      brand, or none. */
  function AvailableModels(cars: seq<Car>, brand: string): seq<string>
    decreases |cars|
  {
    if cars == [] then []
    else if cars[0].brand == brand then cars[0].models
    else AvailableModels(cars[1..], brand)
  }

  lemma {:induction false} AvailableModelsSpec(cars: seq<Car>, brand: string)
    ensures (forall c :: c in cars ==> c.brand != brand) ==> AvailableModels(cars, brand) == []
    ensures (exists c :: c in cars && c.brand == brand) ==>
      exists i :: 0 <= i < |cars| && cars[i].brand == brand && AvailableModels(cars, brand) == cars[i].models
        && forall j :: 0 <= j < i ==> cars[j].brand != brand
    decreases |cars|
  {
    if cars != [] && cars[0].brand != brand {
      assert forall c :: c in cars[1..] ==> c in cars;
      AvailableModelsSpec(cars[1..], brand);
      if exists c :: c in cars && c.brand == brand {
        var c :| c in cars && c.brand == brand;
        assert c in cars[1..];
        var i :| 0 <= i < |cars[1..]| && cars[1..][i].brand == brand && AvailableModels(cars[1..], brand) == cars[1..][i].models
          && forall j :: 0 <= j < i ==> cars[1..][j].brand != brand;
        assert forall j :: 0 <= j < i + 1 ==> cars[j].brand != brand by {
          forall j | 0 <= j < i + 1 ensures cars[j].brand != brand {
            if j > 0 { assert cars[j] == cars[1..][j - 1]; }
          }
        }
      }
    }
  }

  /** Choosing a brand in the list clears the model. */
  function SelectBrand(form: Form, brand: string): (f: Form)
    ensures f.carBrand == brand && f.carModel == ""
    ensures f.(carBrand := form.carBrand, carModel := form.carModel) == form
  {
    form.(carBrand := brand, carModel := "")
  }

  /** Typing in the plate field stores the text upper-cased. */
  function SetPlate(form: Form, text: string): (f: Form)
    ensures f.plateNumber == Upper(text)
    ensures |f.plateNumber| == |text| && Upper(f.plateNumber) == f.plateNumber
    ensures f.(plateNumber := form.plateNumber) == form
  {
    UpperIdempotent(text);
    form.(plateNumber := Upper(text))
  }

  /** The save button is enabled only with both a brand and a model. */
  predicate CanSave(form: Form)
  {
    form.carBrand != "" && form.carModel != ""
  }

  /** `handleSave`: nothing without a brand and a model; otherwise a new record
      on the selected date at the form's time, with no status, empty optional
      texts absent. */
  function Save(form: Form, id: string, selectedDate: string): Option<Appointment>
  {
    if !CanSave(form) then None
    else Some(Appointment(id, selectedDate, form.time, form.carBrand, form.carModel,
      AbsentIfEmpty(form.plateNumber), AbsentIfEmpty(form.color), AbsentIfEmpty(form.notes), NoStatus))
  }

  /** A record is built exactly when brand and model are filled in; it carries
      the given id, the selected date and the form's time, brand and model, no
      status, and each optional text exactly when it is non-empty. */
  lemma SaveSpec(form: Form, id: string, selectedDate: string)
    ensures Save(form, id, selectedDate).Some? <==> form.carBrand != "" && form.carModel != ""
    ensures Save(form, id, selectedDate).Some? ==>
      var r := Save(form, id, selectedDate).value;
      r.id == id && r.date == selectedDate && r.time == form.time && r.status == NoStatus
      && r.carBrand == form.carBrand && r.carModel == form.carModel
      && (r.plateNumber.Some? <==> form.plateNumber != "") && OrEmpty(r.plateNumber) == form.plateNumber
      && (r.color.Some? <==> form.color != "") && OrEmpty(r.color) == form.color
      && (r.notes.Some? <==> form.notes != "") && OrEmpty(r.notes) == form.notes
  {
  }

  /** A plate typed into the form gives the new record the client key of that
      plate without its blanks, whatever the case it was typed in. */
  lemma SavedPlateKey(form: Form, text: string, id: string, selectedDate: string)
    requires CanSave(form) && RemoveWhitespace(Upper(text)) != ""
    ensures Save(SetPlate(form, text), id, selectedDate).Some?
    ensures ClientKey(Save(SetPlate(form, text), id, selectedDate).value) == RemoveWhitespace(Upper(text))
  {
    UpperIdempotent(text);
  }

  /** `handleClose` (Cancel, and the close after a save), as written: every
      text is cleared, so the form cannot be saved, and the time goes back to
      the slot of the current render, or 09:00. */
  function Close(form: Form, selectedTime: Option<string>): (f: Form)
    ensures f.carBrand == "" && f.carModel == "" && f.plateNumber == "" && f.color == "" && f.notes == ""
    ensures Truthy(selectedTime) ==> f.time == selectedTime.value
    ensures !Truthy(selectedTime) ==> f.time == "09:00"
    ensures !CanSave(f)
  {
    ClearedForm(selectedTime)
  }

  /** Opening the mounted dialog from a slot, as written: the component stays
      mounted, so a new `selectedTime` does not reach the form's state. */
  function OpenAsWritten(form: Form, selectedTime: Option<string>): Form
  {
    form
  }

  /** The form stays one opening behind: mounted with no slot it shows 09:00
      when first opened from the 14:00 slot, and after closing it shows 14:00
      when opened from the 10:00 slot. */
  lemma OpenAsWrittenLags()
    ensures OpenAsWritten(ClearedForm(None), Some("14:00")).time == "09:00"
    ensures OpenAsWritten(Close(ClearedForm(None), Some("14:00")), Some("10:00")).time == "14:00"
  {
  }

  /** Opening the dialog with the time set from the slot, as the reset in
      `handleClose` intends. */
  function Open(form: Form, selectedTime: Option<string>): (f: Form)
    ensures f.time == DefaultTime(selectedTime)
    ensures f.(time := form.time) == form
  {
    form.(time := DefaultTime(selectedTime))
  }

  /** Whatever happened before, an opened, cleared dialog shows the slot's time
      (09:00 for the custom button) and a record saved right away is at that time. */
  lemma OpenShowsSlot(form: Form, selectedTime: Option<string>, later: Option<string>, brand: string, model: string, id: string, date: string)
    requires brand != "" && model != ""
    ensures Open(Close(form, selectedTime), later).time == DefaultTime(later)
    ensures Open(ClearedForm(None), Some("14:00")).time == "14:00"
    ensures var f := Open(Close(form, selectedTime), later).(carBrand := brand, carModel := model);
      Save(f, id, date).Some? && Save(f, id, date).value.time == DefaultTime(later)
  {
  }
}
