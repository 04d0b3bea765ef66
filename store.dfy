/** The appointment list held by the page (src/pages/Index.tsx) and the
    updates the components hand it (`setAppointments`). Each update replaces
    the whole list with a value computed by one of the list transforms. */
module AppointmentStore {
  import opened Seqs
  import opened Index
  import TimeSlot
  import SettingsView

  class AppointmentStore {
    var appointments: seq<Appointment>

    constructor (initial: seq<Appointment>)
      ensures appointments == initial
    {
      appointments := initial;
    }

    /** Saving a new appointment from the calendar: `[...prev, apt]`. */
    method Add(apt: Appointment)
      modifies this
      ensures appointments == old(appointments) + [apt]
      ensures |appointments| == |old(appointments)| + 1 && appointments[..|old(appointments)|] == old(appointments)
      ensures Last(appointments) == apt
    {
      appointments := appointments + [apt];
      assert appointments[..|old(appointments)|] == old(appointments);
    }

    /** A status button on a card. */
    method SetStatus(id: string, chosen: Status)
      modifies this
      ensures appointments == TimeSlot.ToggleStatus(old(appointments), id, chosen)
      ensures |appointments| == |old(appointments)|
      ensures forall i :: 0 <= i < |appointments| && old(appointments)[i].id != id ==> appointments[i] == old(appointments)[i]
    {
      appointments := TimeSlot.ToggleStatus(appointments, id, chosen);
    }

    /** The delete button on a card. */
    method Delete(id: string)
      modifies this
      ensures appointments == TimeSlot.DeleteById(old(appointments), id)
      ensures forall a :: a in appointments <==> a in old(appointments) && a.id != id
    {
      TimeSlot.DeleteByIdSpec(appointments, id);
      appointments := TimeSlot.DeleteById(appointments, id);
    }

    /** Saving the edit form of a card. */
    method Replace(updated: Appointment)
      modifies this
      ensures appointments == TimeSlot.ReplaceById(old(appointments), updated)
      ensures |appointments| == |old(appointments)|
    {
      appointments := TimeSlot.ReplaceById(appointments, updated);
    }

    /** Restoring a backup: on success the whole list is replaced, on failure
        it is left as it was. */
    method Restore(file: SettingsView.BackupFile, today: int) returns (ok: bool)
      modifies this
      ensures ok <==> file.Parsed? && file.appointments.Records?
      ensures ok ==> appointments == SettingsView.PastAppointments(old(appointments), today) + file.appointments.records
      ensures !ok ==> appointments == old(appointments)
    {
      var r := SettingsView.Restore(appointments, file, today);
      if r.Success? {
        appointments := r.value;
        ok := true;
      } else {
        ok := false;
      }
    }
  }
}
