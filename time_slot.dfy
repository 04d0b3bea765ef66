/** One half-hour slot of the calendar (src/components/TimeSlot.tsx): the
    list transforms it sends to the store (status toggle, delete, edit-save),
    its own copy of the client key, and the colour and warning of each card. */
module TimeSlot {
  import opened Seqs
  import opened Text
  import opened Index

  /** The status a record gets when the user picks `chosen`: picking the
      current status again clears it. */
  function ToggledStatus(current: Status, chosen: Status): (r: Status)
    ensures r == NoStatus || r == chosen
    ensures chosen != NoStatus ==> (r == chosen <==> current != chosen)
  {
    if current == chosen then NoStatus else chosen
  }

  /** `handleStatusChange`: every record with the id gets its status toggled. */
  function ToggleStatus(s: seq<Appointment>, id: string, chosen: Status): seq<Appointment>
  {
    seq(|s|, i requires 0 <= i < |s| => if s[i].id == id then s[i].(status := ToggledStatus(s[i].status, chosen)) else s[i])
  }

  /** A toggle touches only the status of the records with the id; length, order
      and every other record are unchanged. */
  lemma ToggleStatusEffect(s: seq<Appointment>, id: string, chosen: Status)
    ensures |ToggleStatus(s, id, chosen)| == |s|
    ensures forall i :: 0 <= i < |s| && s[i].id != id ==> ToggleStatus(s, id, chosen)[i] == s[i]
    ensures forall i :: 0 <= i < |s| && s[i].id == id ==>
      ToggleStatus(s, id, chosen)[i] == s[i].(status := if s[i].status == chosen then NoStatus else chosen)
  {
  }

  /** Toggling an id no record has changes nothing. */
  lemma ToggleUnknownId(s: seq<Appointment>, id: string, chosen: Status)
    requires forall a :: a in s ==> a.id != id
    ensures ToggleStatus(s, id, chosen) == s
  {
    assert forall i :: 0 <= i < |s| ==> s[i] in s;
  }

  /** The same toggle twice restores every record whose status was none or the chosen one. */
  lemma ToggleTwice(s: seq<Appointment>, id: string, chosen: Status)
    requires forall a :: a in s && a.id == id ==> a.status == NoStatus || a.status == chosen
    ensures ToggleStatus(ToggleStatus(s, id, chosen), id, chosen) == s
  {
    forall i | 0 <= i < |s|
      ensures ToggleStatus(ToggleStatus(s, id, chosen), id, chosen)[i] == s[i]
    {
      assert s[i] in s;
    }
  }

  /** Picking the other status twice does not restore it: the record ends with no status. */
  lemma ToggleTwiceFromOther(a: Appointment, chosen: Status)
    requires a.status != NoStatus && chosen != NoStatus && a.status != chosen
    ensures ToggleStatus(ToggleStatus([a], a.id, chosen), a.id, chosen) == [a.(status := NoStatus)]
  {
  }

  /** `handleDelete`: drop every record with the id. */
  function DeleteById(s: seq<Appointment>, id: string): seq<Appointment>
  {
    Filter(s, (a: Appointment) => a.id != id)
  }

  /** Delete keeps exactly the records with another id, in their order; an absent id changes nothing. */
  lemma DeleteByIdSpec(s: seq<Appointment>, id: string)
    ensures forall a :: a in DeleteById(s, id) <==> a in s && a.id != id
    ensures IsSubsequence(DeleteById(s, id), s)
    ensures (forall a :: a in s ==> a.id != id) ==> DeleteById(s, id) == s
    ensures forall a :: multiset(DeleteById(s, id))[a] == if a.id != id then multiset(s)[a] else 0
  {
    FilterCount(s, (a: Appointment) => a.id != id);
    FilterMembership(s, (a: Appointment) => a.id != id);
    FilterIsSubsequence(s, (a: Appointment) => a.id != id);
    if forall a :: a in s ==> a.id != id {
      FilterKeepsAll(s, (a: Appointment) => a.id != id);
    }
  }

  /** The edit-save `map`: every record with the updated record's id is replaced by it. */
  function ReplaceById(s: seq<Appointment>, updated: Appointment): seq<Appointment>
  {
    seq(|s|, i requires 0 <= i < |s| => if s[i].id == updated.id then updated else s[i])
  }

  /** Replace leaves the length and every other record alone, and puts the
      updated record wherever its id was; with no such id it changes nothing. */
  lemma ReplaceByIdSpec(s: seq<Appointment>, updated: Appointment)
    ensures |ReplaceById(s, updated)| == |s|
    ensures forall i :: 0 <= i < |s| ==> ReplaceById(s, updated)[i] == (if s[i].id == updated.id then updated else s[i])
    ensures (forall a :: a in s ==> a.id != updated.id) ==> ReplaceById(s, updated) == s
    ensures updated in ReplaceById(s, updated) <==> (updated in s || exists a :: a in s && a.id == updated.id)
  {
    var r := ReplaceById(s, updated);
    if forall a :: a in s ==> a.id != updated.id {
      assert forall i :: 0 <= i < |s| ==> s[i] in s;
    }
    if exists a :: a in s && a.id == updated.id {
      var a :| a in s && a.id == updated.id;
      var i :| 0 <= i < |s| && s[i] == a;
      assert r[i] == updated;
    }
    if updated in r {
      var i :| 0 <= i < |r| && r[i] == updated;
      assert s[i] in s;
    }
    if updated in s {
      var i :| 0 <= i < |s| && s[i] == updated;
      assert r[i] == updated;
    }
  }

  /** `getClientId`, the slot's own copy of the key expression. */
  function ClientId(apt: Appointment): string
  {
    if Truthy(apt.plateNumber) then RemoveWhitespace(Upper(apt.plateNumber.value))
    else apt.carBrand + "|" + apt.carModel + "|" + (if Truthy(apt.color) then apt.color.value else NoColour)
  }

  /** The slot's key is the aggregation's key, so the slot finds the client its appointment is in. */
  lemma ClientIdIsClientKey(s: seq<Appointment>, apt: Appointment)
    requires apt in s
    ensures ClientId(apt) == ClientKey(apt)
    ensures ClientId(apt) in Ids(Clients(s))
  {
    ClientIds(s);
  }

  /** `getReliabilityClass`: the card colour of an appointment, given the client verdicts. */
  function ReliabilityClass(clients: seq<ClientData>, now: int, apt: Appointment): string
  {
    if apt.status == Arrived then "neon-green"
    else if apt.status == Missed then "neon-red"
    else if ClientReliability(clients, ClientId(apt), now) == Unreliable then "neon-orange"
    else ""
  }

  /** The "unreliable client" warning under a card. */
  predicate ShowsWarning(clients: seq<ClientData>, now: int, apt: Appointment)
  {
    ClientReliability(clients, ClientId(apt), now) == Unreliable && apt.status == NoStatus
  }

  /** A resolved appointment is green or red whatever the client; an open one
      is orange exactly when its client is unreliable, which is exactly when
      the warning shows. */
  lemma ReliabilityClassSpec(clients: seq<ClientData>, now: int, apt: Appointment)
    ensures apt.status == Arrived ==> ReliabilityClass(clients, now, apt) == "neon-green"
    ensures apt.status == Missed ==> ReliabilityClass(clients, now, apt) == "neon-red"
    ensures apt.status == NoStatus ==>
      (ReliabilityClass(clients, now, apt) == "neon-orange" <==> ClientReliability(clients, ClientId(apt), now) == Unreliable)
    ensures apt.status == NoStatus && ClientReliability(clients, ClientId(apt), now) != Unreliable ==> ReliabilityClass(clients, now, apt) == ""
    ensures ShowsWarning(clients, now, apt) <==> ReliabilityClass(clients, now, apt) == "neon-orange"
  {
  }

  /** `toggleExpanded`: an empty slot never opens. */
  function ToggleExpanded(expanded: bool, count: nat): (r: bool)
    ensures count == 0 ==> r == expanded
    ensures count > 0 ==> r != expanded
  {
    if count > 0 then !expanded else expanded
  }
}
