/** The client list (src/components/ClientsView.tsx): search, the status
    badge, the count of active appointments and the card colours. */
module ClientsView {
  import opened Seqs
  import opened Text
  import opened Index

  /** `field?.toLowerCase().includes(query)`: an absent field never matches. */
  predicate FieldMatches(field: Option<string>, query: string)
  {
    field.Some? && Contains(Lower(field.value), query)
  }

  /** The search condition for one client, with the query already lower-cased. */
  predicate Matches(client: ClientData, query: string)
  {
    Contains(Lower(client.carBrand), query) || Contains(Lower(client.carModel), query)
    || FieldMatches(client.plateNumber, query) || FieldMatches(client.color, query)
  }

  /** `filteredClients` */
  function FilterClients(clients: seq<ClientData>, search: string): seq<ClientData>
  {
    if search == "" then clients else Filter(clients, c => Matches(c, Lower(search)))
  }

  /** An empty search shows every client; otherwise a client is shown exactly
      when the lower-cased search occurs in its lower-cased brand, model, plate
      or colour, and the shown clients keep their order. */
  lemma FilterClientsSpec(clients: seq<ClientData>, search: string)
    ensures search == "" ==> FilterClients(clients, search) == clients
    ensures forall c :: c in FilterClients(clients, search) <==> c in clients && (search == "" || Matches(c, Lower(search)))
    ensures IsSubsequence(FilterClients(clients, search), clients)
    ensures forall c :: multiset(FilterClients(clients, search))[c] == (if search == "" || Matches(c, Lower(search)) then multiset(clients)[c] else 0)
  {
    if search == "" {
      SubsequenceReflexive(clients);
    } else {
      FilterCount(clients, c => Matches(c, Lower(search)));
      FilterMembership(clients, c => Matches(c, Lower(search)));
      FilterIsSubsequence(clients, c => Matches(c, Lower(search)));
    }
  }

  /** An absent plate or colour never matches a search, so a client without
      one is found only through its other fields. */
  lemma AbsentFieldsNeverMatch(client: ClientData, query: string)
    ensures !FieldMatches(None, query)
    ensures client.plateNumber.None? ==> (Matches(client, query) <==>
      Contains(Lower(client.carBrand), query) || Contains(Lower(client.carModel), query) || FieldMatches(client.color, query))
    ensures client.color.None? ==> (Matches(client, query) <==>
      Contains(Lower(client.carBrand), query) || Contains(Lower(client.carModel), query) || FieldMatches(client.plateNumber, query))
  {
  }

  /** `getClientStatus`: the badge, computed as the page computes the client's reliability. */
  function ClientStatus(client: ClientData, now: int): Reliability
  {
    Classify(client.appointments, now)
  }

  /** The badge of a derived client is the verdict the calendar shows for its
      appointments: neutral with no resolved past appointment, otherwise set by
      the last one, and unaffected by future or unresolved ones. */
  lemma ClientStatusSpec(s: seq<Appointment>, i: nat, now: int)
    requires i < |Clients(s)|
    ensures ClientStatus(Clients(s)[i], now) == ClientReliability(Clients(s), Clients(s)[i].id, now)
    ensures ClientStatus(Clients(s)[i], now) == Neutral <==>
      forall a :: a in Clients(s)[i].appointments ==> !Counts(a, now)
  {
    ClientIds(s);
    FindClientDistinct(Clients(s), i);
    ClassifyNeutral(Clients(s)[i].appointments, now);
  }

  /** An appointment at or after `now`; an Invalid Date is neither. */
  predicate Active(apt: Appointment, now: int)
  {
    HasDateTime(apt) && DateTime(apt).value >= now
  }

  predicate Past(apt: Appointment, now: int)
  {
    HasDateTime(apt) && DateTime(apt).value < now
  }

  /** `getActiveAppointmentsCount` */
  function ActiveCount(client: ClientData, now: int): nat
  {
    Count(client.appointments, a => Active(a, now))
  }

  /** With valid date-times, active and past appointments add up to all of them;
      an Invalid Date is counted in neither. */
  lemma ActiveCountSpec(client: ClientData, now: int)
    ensures ActiveCount(client, now) <= |client.appointments|
    ensures AllDated(client.appointments) ==>
      ActiveCount(client, now) + Count(client.appointments, a => Past(a, now)) == |client.appointments|
    ensures forall a :: a in client.appointments && !HasDateTime(a) ==>
      a !in Filter(client.appointments, a => Active(a, now)) && a !in Filter(client.appointments, a => Past(a, now))
  {
    var s := client.appointments;
    FilterLength(s, a => Active(a, now));
    FilterMembership(s, a => Active(a, now));
    FilterMembership(s, a => Past(a, now));
    if AllDated(s) {
      FilterPartition(s, a => Active(a, now), a => Past(a, now));
    }
  }

  /** The orange card: an unreliable client with something still to come. */
  predicate CardHighlighted(client: ClientData, now: int)
  {
    ClientStatus(client, now) == Unreliable && ActiveCount(client, now) > 0
  }

  /** A highlighted client has a missed visit in the past and an appointment ahead. */
  lemma CardHighlightedSpec(client: ClientData, now: int)
    ensures CardHighlighted(client, now) ==>
      (exists a :: a in client.appointments && Past(a, now) && a.status == Missed)
      && (exists a :: a in client.appointments && Active(a, now))
  {
    if CardHighlighted(client, now) {
      var past := CountingAppointments(client.appointments, now);
      FilterMembership(client.appointments, a => Counts(a, now));
      assert past[|past| - 1] in past;
      var act := Filter(client.appointments, a => Active(a, now));
      FilterMembership(client.appointments, a => Active(a, now));
      assert act[0] in act;
    }
  }

  /** `getAppointmentClass`: resolved appointments are coloured, open ones are not. */
  function AppointmentClass(apt: Appointment): (r: string)
    ensures r == "neon-green" <==> apt.status == Arrived
    ensures r == "neon-red" <==> apt.status == Missed
    ensures r == "" <==> apt.status == NoStatus
  {
    match apt.status
    case Arrived => "neon-green"
    case Missed => "neon-red"
    case NoStatus => ""
  }
}
