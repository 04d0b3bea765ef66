/** The page that owns the appointment list (src/pages/Index.tsx): the record
    types, the client key, the derived client list and the reliability
    verdict. Clients are never stored: they are recomputed from the
    appointments, grouped by key in order of first appearance, each client's
    appointments sorted by date and time. */
module Index {
  import opened Seqs
  import opened Text
  import opened Dates
  import opened Sorting

  /** `status?: 'arrived' | 'missed' | null`; null and an absent status behave alike. */
  datatype Status = NoStatus | Arrived | Missed

  datatype Appointment = Appointment(
    id: string,
    date: string,
    time: string,
    carBrand: string,
    carModel: string,
    plateNumber: Option<string>,
    color: Option<string>,
    notes: Option<string>,
    status: Status)

  datatype Car = Car(brand: string, models: seq<string>)

  datatype ClientData = ClientData(
    id: string,
    name: Option<string>,
    phone: Option<string>,
    carBrand: string,
    carModel: string,
    plateNumber: Option<string>,
    color: Option<string>,
    appointments: seq<Appointment>)

  datatype Reliability = Reliable | Unreliable | Neutral

  /** The colour used in the key of a plate-less car with no colour ("no colour"). */
  const NoColour: string := "Без цвета"

  // ---------------------------------------------------------------------------
  // Client identity

  /** `plate.toUpperCase().replace(/\s+/g, '')` */
  function NormalizePlate(plate: string): string
  {
    RemoveWhitespace(Upper(plate))
  }

  /** The client an appointment belongs to: its normalised plate when it has a
      non-empty one, otherwise `brand|model|colour`. */
  function ClientKey(apt: Appointment): string
  {
    if Truthy(apt.plateNumber) then NormalizePlate(apt.plateNumber.value)
    else apt.carBrand + "|" + apt.carModel + "|" + (if Truthy(apt.color) then apt.color.value else NoColour)
  }

  /** Normalising a normalised plate changes nothing. */
  lemma NormalizePlateIdempotent(plate: string)
    ensures NormalizePlate(NormalizePlate(plate)) == NormalizePlate(plate)
  {
    var u := Upper(plate);
    RemoveWhitespaceOfUpper(RemoveWhitespace(u));
    UpperIdempotent(plate);
    RemoveWhitespaceOfUpper(plate);
    calc {
      NormalizePlate(NormalizePlate(plate));
      RemoveWhitespace(Upper(RemoveWhitespace(u)));
      RemoveWhitespace(Upper(Upper(RemoveWhitespace(plate))));
      { UpperIdempotent(RemoveWhitespace(plate)); }
      RemoveWhitespace(Upper(RemoveWhitespace(plate)));
      { RemoveWhitespaceOfUpper(RemoveWhitespace(plate)); }
      Upper(RemoveWhitespace(RemoveWhitespace(plate)));
      { RemoveWhitespaceIdempotent(plate); }
      Upper(RemoveWhitespace(plate));
    }
  }

  /** Plates that differ only in letter case have the same key. */
  lemma NormalizePlateIgnoresCase(plate: string)
    ensures NormalizePlate(Lower(plate)) == NormalizePlate(plate)
    ensures NormalizePlate(Upper(plate)) == NormalizePlate(plate)
  {
    UpperOfLower(plate);
    UpperIdempotent(plate);
  }

  /** Plates that differ only in white space have the same key. */
  lemma NormalizePlateIgnoresWhitespace(before: string, after: string, w: char)
    requires IsWhitespace(w)
    ensures NormalizePlate(before + [w] + after) == NormalizePlate(before + after)
  {
    UpperAppend(before + [w], after);
    UpperAppend(before, [w]);
    UpperAppend(before, after);
    UpperCharKeepsWhitespace(w);
    RemoveWhitespaceAppend(Upper(before) + Upper([w]), Upper(after));
    RemoveWhitespaceAppend(Upper(before), Upper([w]));
    RemoveWhitespaceAppend(Upper(before), Upper(after));
    assert Init(Upper([w])) == [];
  }

  /** A normalised plate holds no white space and no lower-case letter. */
  lemma NormalizedPlateIsClean(plate: string)
    ensures forall c :: c in NormalizePlate(plate) ==> !IsWhitespace(c) && UpperChar(c) == c
  {
    RemoveWhitespaceLeavesNone(Upper(plate));
    forall c | c in Upper(plate) ensures UpperChar(c) == c {
      var i :| 0 <= i < |plate| && Upper(plate)[i] == c;
      UpperCharIdempotent(plate[i]);
    }
  }

  /** Without a plate, and with no `|` in brand, model or colour, the key splits
      back into exactly those three fields, the colour defaulting to NoColour. */
  lemma FallbackKeyParts(apt: Appointment)
    requires !Truthy(apt.plateNumber)
    requires '|' !in apt.carBrand && '|' !in apt.carModel
    requires apt.color.Some? ==> '|' !in apt.color.value
    ensures Split(ClientKey(apt), '|') == [apt.carBrand, apt.carModel, if Truthy(apt.color) then apt.color.value else NoColour]
  {
    var colour := if Truthy(apt.color) then apt.color.value else NoColour;
    assert '|' !in NoColour;
    assert ClientKey(apt) == apt.carBrand + ['|'] + (apt.carModel + ['|'] + colour);
    SplitAtFirst(apt.carBrand, apt.carModel + ['|'] + colour, '|');
    SplitAtFirst(apt.carModel, colour, '|');
    SplitSingle(colour, '|');
  }

  lemma LowerCasePlateExample()
    ensures NormalizePlate("a123bc") == "A123BC"
  {
    assert Upper("a123bc") == "A123BC";
    RemoveWhitespaceOfClean("A123BC");
  }

  lemma SpacedPlateExample()
    ensures NormalizePlate("A123 BC") == "A123BC"
  {
    NormalizePlateIgnoresWhitespace("A123", "BC", ' ');
    assert "A123" + [' '] + "BC" == "A123 BC";
    assert "A123" + "BC" == "A123BC";
    assert Upper("A123BC") == "A123BC";
    RemoveWhitespaceOfClean("A123BC");
  }

  /** "a123bc" and "A123 BC" are the same client. */
  lemma PlateKeyExample(a: Appointment, b: Appointment)
    requires a.plateNumber == Some("a123bc") && b.plateNumber == Some("A123 BC")
    ensures ClientKey(a) == ClientKey(b) == "A123BC"
  {
    LowerCasePlateExample();
    SpacedPlateExample();
  }

  // ---------------------------------------------------------------------------
  // Ordering by date and time

  /** The date-time `sort` compares: None for an Invalid Date. */
  function DateTime(apt: Appointment): Option<int>
  {
    Moment(apt.date, apt.time)
  }

  predicate HasDateTime(apt: Appointment)
  {
    DateTime(apt).Some?
  }

  predicate AllDated(s: seq<Appointment>)
  {
    forall a :: a in s ==> HasDateTime(a)
  }

  /** The comparator `dateA.getTime() - dateB.getTime()` is positive. When
      either date is invalid the difference is NaN, which `sort` reads as 0. The
      comparator is then not consistent, and the insertion sort is the model's
      choice among the orders an engine may produce. */
  predicate Later(a: Appointment, b: Appointment)
  {
    HasDateTime(a) && HasDateTime(b) && DateTime(a).value > DateTime(b).value
  }

  /** No appointment comes before one that is earlier than it. */
  predicate Chronological(s: seq<Appointment>)
  {
    SortedBy(s, Later)
  }

  /** The appointments of `s` falling on the moment `t` (or all undated ones when `t` is None). */
  function AtDateTime(s: seq<Appointment>, t: Option<int>): seq<Appointment>
  {
    Filter(s, a => DateTime(a) == t)
  }

  /** `appointments.sort(byDateTime)` (Index.tsx:69-75), a stable sort. */
  function SortByDateTime(s: seq<Appointment>): seq<Appointment>
  {
    InsertionSort(s, Later)
  }

  /** Sorting by date-time neither loses nor adds an appointment. */
  lemma SortByDateTimePermutes(s: seq<Appointment>)
    ensures multiset(SortByDateTime(s)) == multiset(s)
    ensures |SortByDateTime(s)| == |s|
    ensures forall a :: a in SortByDateTime(s) <==> a in s
  {
    SortPermutes(s, Later);
    SortMembership(s, Later);
  }

  /** Appointments at the same date-time (and undated ones) keep their store order. */
  lemma SortByDateTimeStable(s: seq<Appointment>, t: Option<int>)
    ensures AtDateTime(SortByDateTime(s), t) == AtDateTime(s, t)
  {
    SortStable(s, Later, a => DateTime(a) == t);
  }

  lemma LaterStrictWeak(s: seq<Appointment>)
    requires AllDated(s)
    ensures StrictWeakOn(s, Later)
  {
  }

  /** When every date-time is valid the sorted list is in ascending date-time order. */
  lemma SortByDateTimeChronological(s: seq<Appointment>)
    requires AllDated(s)
    ensures AllDated(SortByDateTime(s))
    ensures forall i, j :: 0 <= i < j < |SortByDateTime(s)| ==>
      HasDateTime(SortByDateTime(s)[i]) && HasDateTime(SortByDateTime(s)[j])
      && DateTime(SortByDateTime(s)[i]).value <= DateTime(SortByDateTime(s)[j]).value
  {
    SortByDateTimePermutes(s);
    LaterStrictWeak(s);
    SortSorted(s, Later);
    var r := SortByDateTime(s);
    forall i, j | 0 <= i < j < |r|
      ensures HasDateTime(r[i]) && HasDateTime(r[j]) && DateTime(r[i]).value <= DateTime(r[j]).value
    {
      assert r[i] in r && r[j] in r;
      assert !Later(r[i], r[j]);
    }
  }

  // ---------------------------------------------------------------------------
  // Aggregation: specification

  /** The distinct client keys of `s`, in order of first appearance. */
  function ClientKeys(s: seq<Appointment>): seq<string>
    decreases |s|
  {
    if s == [] then []
    else
      var ks := ClientKeys(Init(s));
      if ClientKey(Last(s)) in ks then ks else ks + [ClientKey(Last(s))]
  }

  /** The appointments of `s` with key `k`, in store order. */
  function WithKey(s: seq<Appointment>, k: string): seq<Appointment>
  {
    Filter(s, a => ClientKey(a) == k)
  }

  /** The client a key names, as the aggregation builds it before sorting:
      display fields from its first appointment, all its appointments. */
  function GroupOf(s: seq<Appointment>, k: string): ClientData
    requires WithKey(s, k) != []
  {
    var g := WithKey(s, k);
    NewClient(k, g[0]).(appointments := g)
  }

  function NewClient(key: string, apt: Appointment): ClientData
  {
    ClientData(key, None, None, apt.carBrand, apt.carModel, apt.plateNumber, apt.color, [])
  }

  function SortClient(c: ClientData): ClientData
  {
    c.(appointments := SortByDateTime(c.appointments))
  }

  function Ids(clients: seq<ClientData>): seq<string>
  {
    seq(|clients|, i requires 0 <= i < |clients| => clients[i].id)
  }

  /** The first position of `k` in `ks`. */
  function IndexOf(ks: seq<string>, k: string): (r: Option<nat>)
    ensures r.Some? ==> r.value < |ks| && ks[r.value] == k
    ensures r.None? <==> k !in ks
    decreases |ks|
  {
    if ks == [] then None
    else if ks[0] == k then Some(0)
    else match IndexOf(ks[1..], k)
      case Some(j) => Some(j + 1)
      case None => None
  }

  /** One turn of the `forEach` (Index.tsx:50-67): create the client on first
      sight of its key, then push the appointment onto it. */
  function AddAppointment(clients: seq<ClientData>, apt: Appointment): seq<ClientData>
  {
    var key := ClientKey(apt);
    match IndexOf(Ids(clients), key)
    case Some(j) => clients[j := clients[j].(appointments := clients[j].appointments + [apt])]
    case None => clients + [NewClient(key, apt).(appointments := [apt])]
  }

  /** The client map after the `forEach`, in insertion order. */
  function Grouped(s: seq<Appointment>): seq<ClientData>
    decreases |s|
  {
    if s == [] then [] else AddAppointment(Grouped(Init(s)), Last(s))
  }

  /** The derived client list: `Array.from(clientMap.values())` after each
      client's appointments have been sorted. */
  function Clients(s: seq<Appointment>): seq<ClientData>
  {
    var g := Grouped(s);
    seq(|g|, i requires 0 <= i < |g| => SortClient(g[i]))
  }

  predicate Distinct(ks: seq<string>)
  {
    forall i, j :: 0 <= i < j < |ks| ==> ks[i] != ks[j]
  }

  // ---------------------------------------------------------------------------
  // Aggregation: properties

  lemma {:induction false} ClientKeysSpec(s: seq<Appointment>)
    ensures Distinct(ClientKeys(s))
    ensures forall k :: k in ClientKeys(s) <==> exists a :: a in s && ClientKey(a) == k
    decreases |s|
  {
    if s != [] {
      ClientKeysSpec(Init(s));
      assert s == Init(s) + [Last(s)];
      forall k ensures k in ClientKeys(s) <==> exists a :: a in s && ClientKey(a) == k {
        if k in ClientKeys(s) && k !in ClientKeys(Init(s)) {
          assert Last(s) in s;
        }
        if (exists a :: a in s && ClientKey(a) == k) && k != ClientKey(Last(s)) {
          var a :| a in s && ClientKey(a) == k;
          assert a in Init(s);
        }
      }
    }
  }

  lemma WithKeyNonEmpty(s: seq<Appointment>, k: string)
    ensures WithKey(s, k) != [] <==> k in ClientKeys(s)
  {
    ClientKeysSpec(s);
    FilterMembership(s, a => ClientKey(a) == k);
    if k in ClientKeys(s) {
      var a :| a in s && ClientKey(a) == k;
      assert a in WithKey(s, k);
    }
  }

  lemma WithKeyAppend(s: seq<Appointment>, x: Appointment, k: string)
    ensures WithKey(s + [x], k) == WithKey(s, k) + (if ClientKey(x) == k then [x] else [])
  {
    assert Init(s + [x]) == s;
  }

  lemma IdsUpdate(clients: seq<ClientData>, j: nat, c: ClientData)
    requires j < |clients| && c.id == clients[j].id
    ensures Ids(clients[j := c]) == Ids(clients)
  {
  }

  lemma IdsAppend(clients: seq<ClientData>, c: ClientData)
    ensures Ids(clients + [c]) == Ids(clients) + [c.id]
  {
  }

  /** The client list after the `forEach` has one client per key, in order of
      first appearance, holding every appointment with that key in store order
      and the display fields of the first of them. */
  lemma {:induction false} GroupedSpec(s: seq<Appointment>)
    ensures Ids(Grouped(s)) == ClientKeys(s)
    ensures forall i :: 0 <= i < |Grouped(s)| ==> WithKey(s, Grouped(s)[i].id) != [] && Grouped(s)[i] == GroupOf(s, Grouped(s)[i].id)
    decreases |s|
  {
    if s != [] {
      var t, x := Init(s), Last(s);
      assert s == t + [x];
      GroupedSpec(t);
      ClientKeysSpec(t);
      var g := Grouped(t);
      var k := ClientKey(x);
      assert |Ids(g)| == |g|;
      match IndexOf(Ids(g), k)
      case Some(j) =>
        var c := g[j].(appointments := g[j].appointments + [x]);
        assert Grouped(s) == g[j := c];
        IdsUpdate(g, j, c);
        forall i | 0 <= i < |g| ensures WithKey(s, Grouped(s)[i].id) != [] && Grouped(s)[i] == GroupOf(s, Grouped(s)[i].id) {
          WithKeyAppend(t, x, g[i].id);
          if i != j {
            assert Ids(g)[i] != Ids(g)[j];
          }
        }
      case None =>
        var c := NewClient(k, x).(appointments := [x]);
        assert Grouped(s) == g + [c];
        IdsAppend(g, c);
        WithKeyAppend(t, x, k);
        WithKeyNonEmpty(t, k);
        forall i | 0 <= i < |g| + 1 ensures WithKey(s, Grouped(s)[i].id) != [] && Grouped(s)[i] == GroupOf(s, Grouped(s)[i].id) {
          if i < |g| {
            WithKeyAppend(t, x, g[i].id);
            assert Ids(g)[i] in ClientKeys(t);
          }
        }
    }
  }

  /** Client ids are distinct and are exactly the keys of the store, in order of first appearance. */
  lemma ClientIds(s: seq<Appointment>)
    ensures Ids(Clients(s)) == ClientKeys(s)
    ensures Distinct(Ids(Clients(s)))
    ensures forall k :: k in Ids(Clients(s)) <==> exists a :: a in s && ClientKey(a) == k
  {
    GroupedSpec(s);
    ClientKeysSpec(s);
    assert Ids(Clients(s)) == Ids(Grouped(s));
  }

  /** A client holds exactly the appointments whose key is its id. */
  lemma ClientMembers(s: seq<Appointment>, i: nat)
    requires i < |Clients(s)|
    ensures forall a :: a in Clients(s)[i].appointments <==> a in s && ClientKey(a) == Clients(s)[i].id
    ensures multiset(Clients(s)[i].appointments) == multiset(WithKey(s, Clients(s)[i].id))
  {
    GroupedSpec(s);
    var c := Grouped(s)[i];
    SortByDateTimePermutes(c.appointments);
    FilterMembership(s, a => ClientKey(a) == c.id);
    forall a ensures a in Clients(s)[i].appointments <==> a in c.appointments {
      assert a in Clients(s)[i].appointments <==> a in multiset(Clients(s)[i].appointments);
    }
  }

  /** Every appointment of the store lands in exactly one client. */
  lemma ExactlyOneClient(s: seq<Appointment>, a: Appointment)
    requires a in s
    ensures exists i :: 0 <= i < |Clients(s)| && a in Clients(s)[i].appointments
    ensures forall i, j :: 0 <= i < |Clients(s)| && 0 <= j < |Clients(s)| && a in Clients(s)[i].appointments && a in Clients(s)[j].appointments ==> i == j
  {
    ClientIds(s);
    var cs := Clients(s);
    assert ClientKey(a) in Ids(cs);
    var i :| 0 <= i < |cs| && Ids(cs)[i] == ClientKey(a);
    ClientMembers(s, i);
    forall i, j | 0 <= i < |cs| && 0 <= j < |cs| && a in cs[i].appointments && a in cs[j].appointments ensures i == j {
      ClientMembers(s, i);
      ClientMembers(s, j);
      assert Ids(cs)[i] == Ids(cs)[j];
    }
  }

  /** All the clients' appointment lists laid end to end. */
  function AllAppointments(clients: seq<ClientData>): seq<Appointment>
    decreases |clients|
  {
    if clients == [] then [] else AllAppointments(Init(clients)) + Last(clients).appointments
  }

  lemma {:induction false} AllAppointmentsUpdate(clients: seq<ClientData>, j: nat, c: ClientData)
    requires j < |clients|
    ensures multiset(AllAppointments(clients[j := c])) + multiset(clients[j].appointments)
         == multiset(AllAppointments(clients)) + multiset(c.appointments)
    decreases |clients|
  {
    var u := clients[j := c];
    if j == |clients| - 1 {
      assert Init(u) == Init(clients);
    } else {
      var i0, l := Init(clients), Last(clients);
      assert Init(u) == i0[j := c];
      assert Last(u) == l;
      assert i0[j] == clients[j];
      AllAppointmentsUpdate(i0, j, c);
      calc {
        multiset(AllAppointments(u)) + multiset(clients[j].appointments);
        multiset(AllAppointments(i0[j := c])) + multiset(l.appointments) + multiset(clients[j].appointments);
        multiset(AllAppointments(i0)) + multiset(c.appointments) + multiset(l.appointments);
        multiset(AllAppointments(clients)) + multiset(c.appointments);
      }
    }
  }

  /** One turn of the `forEach` adds the appointment to exactly one client. */
  lemma CoverStep(g: seq<ClientData>, x: Appointment)
    ensures multiset(AllAppointments(AddAppointment(g, x))) == multiset(AllAppointments(g)) + multiset{x}
  {
    var k := ClientKey(x);
    if k in Ids(g) {
      var j := IndexOf(Ids(g), k).value;
      var c := g[j].(appointments := g[j].appointments + [x]);
      PushStep(g, x, j);
      AllAppointmentsUpdate(g, j, c);
      assert multiset(c.appointments) == multiset(g[j].appointments) + multiset{x};
      MultisetCancel(multiset(AllAppointments(g[j := c])), multiset(AllAppointments(g)) + multiset{x}, multiset(g[j].appointments));
    } else {
      var c := NewClient(k, x).(appointments := [x]);
      assert AddAppointment(g, x) == g + [c];
      assert Init(g + [c]) == g;
    }
  }

  lemma {:induction false} GroupedCover(s: seq<Appointment>)
    ensures multiset(AllAppointments(Grouped(s))) == multiset(s)
    decreases |s|
  {
    if s != [] {
      GroupedCover(Init(s));
      CoverStep(Grouped(Init(s)), Last(s));
      InitLast(s);
    }
  }

  /** Client lists whose appointment lists are pairwise permutations hold the same appointments. */
  lemma {:induction false} AllAppointmentsPointwise(g: seq<ClientData>, h: seq<ClientData>)
    requires |g| == |h|
    requires forall i :: 0 <= i < |g| ==> multiset(g[i].appointments) == multiset(h[i].appointments)
    ensures multiset(AllAppointments(g)) == multiset(AllAppointments(h))
    decreases |g|
  {
    if g != [] {
      AllAppointmentsPointwise(Init(g), Init(h));
    }
  }

  /** The clients partition the store: together they hold every appointment
      exactly as often as the store does, so their lengths add up to the store's. */
  lemma DisjointCover(s: seq<Appointment>)
    ensures multiset(AllAppointments(Clients(s))) == multiset(s)
    ensures |AllAppointments(Clients(s))| == |s|
  {
    GroupedCover(s);
    var g := Grouped(s);
    forall i | 0 <= i < |g| ensures multiset(g[i].appointments) == multiset(Clients(s)[i].appointments) {
      SortByDateTimePermutes(g[i].appointments);
    }
    AllAppointmentsPointwise(g, Clients(s));
    assert |multiset(AllAppointments(Clients(s)))| == |multiset(s)|;
  }

  /** The display fields of a client are those of the first appointment with its key. */
  lemma DisplayFromFirst(s: seq<Appointment>, i: nat)
    requires i < |Clients(s)|
    ensures var c := Clients(s)[i];
      exists n :: 0 <= n < |s| && ClientKey(s[n]) == c.id && (forall m :: 0 <= m < n ==> ClientKey(s[m]) != c.id)
        && c.carBrand == s[n].carBrand && c.carModel == s[n].carModel
        && c.plateNumber == s[n].plateNumber && c.color == s[n].color
  {
    GroupedSpec(s);
    var k := Clients(s)[i].id;
    FirstWithKey(s, k);
  }

  lemma {:induction false} FirstWithKey(s: seq<Appointment>, k: string)
    requires WithKey(s, k) != []
    ensures exists n :: 0 <= n < |s| && s[n] == WithKey(s, k)[0] && ClientKey(s[n]) == k && forall m :: 0 <= m < n ==> ClientKey(s[m]) != k
    decreases |s|
  {
    var t, x := Init(s), Last(s);
    assert s == t + [x];
    WithKeyAppend(t, x, k);
    if WithKey(t, k) != [] {
      FirstWithKey(t, k);
      var n :| 0 <= n < |t| && t[n] == WithKey(t, k)[0] && ClientKey(t[n]) == k && forall m :: 0 <= m < n ==> ClientKey(t[m]) != k;
      FirstKeptOnAppend(t, x, k, n);
    } else {
      FirstIsAppended(t, x, k);
    }
  }

  lemma FirstKeptOnAppend(t: seq<Appointment>, x: Appointment, k: string, n: nat)
    requires n < |t| && WithKey(t, k) != [] && t[n] == WithKey(t, k)[0] && ClientKey(t[n]) == k
    requires forall m :: 0 <= m < n ==> ClientKey(t[m]) != k
    ensures var s := t + [x];
      s[n] == WithKey(s, k)[0] && ClientKey(s[n]) == k && forall m :: 0 <= m < n ==> ClientKey(s[m]) != k
  {
    var s := t + [x];
    WithKeyAppend(t, x, k);
    assert WithKey(s, k)[0] == WithKey(t, k)[0];
    forall m | 0 <= m < n ensures ClientKey(s[m]) != k {
      assert s[m] == t[m];
    }
  }

  lemma FirstIsAppended(t: seq<Appointment>, x: Appointment, k: string)
    requires WithKey(t, k) == [] && WithKey(t + [x], k) != []
    ensures var s := t + [x];
      s[|t|] == WithKey(s, k)[0] && ClientKey(s[|t|]) == k && forall m :: 0 <= m < |t| ==> ClientKey(s[m]) != k
  {
    var s := t + [x];
    WithKeyAppend(t, x, k);
    FilterMembership(t, (a: Appointment) => ClientKey(a) == k);
    forall m | 0 <= m < |t| ensures ClientKey(s[m]) != k {
      assert s[m] == t[m];
      assert t[m] in t;
    }
  }

  /** Appending an appointment never changes the display fields of a client that already exists. */
  lemma DisplayFrozen(s: seq<Appointment>, x: Appointment, k: string)
    requires WithKey(s, k) != []
    ensures WithKey(s + [x], k) != []
    ensures GroupOf(s + [x], k).carBrand == GroupOf(s, k).carBrand
    ensures GroupOf(s + [x], k).carModel == GroupOf(s, k).carModel
    ensures GroupOf(s + [x], k).plateNumber == GroupOf(s, k).plateNumber
    ensures GroupOf(s + [x], k).color == GroupOf(s, k).color
  {
    WithKeyAppend(s, x, k);
  }

  /** Each client's appointments are in ascending date-time order when every
      date-time is valid, and appointments at the same date-time keep store order. */
  lemma ClientAppointmentsOrdered(s: seq<Appointment>, i: nat, t: Option<int>)
    requires i < |Clients(s)|
    ensures AllDated(s) ==> Chronological(Clients(s)[i].appointments)
    ensures AtDateTime(Clients(s)[i].appointments, t) == AtDateTime(WithKey(s, Clients(s)[i].id), t)
  {
    GroupedSpec(s);
    var g := Grouped(s)[i];
    SortByDateTimeStable(g.appointments, t);
    if AllDated(s) {
      FilterMembership(s, a => ClientKey(a) == g.id);
      LaterStrictWeak(g.appointments);
      SortSorted(g.appointments, Later);
    }
  }

  /** The first occurrence of a key in the store. */
  function FirstIndex(s: seq<Appointment>, k: string): (n: nat)
    requires k in ClientKeys(s)
    ensures n < |s| && ClientKey(s[n]) == k
    ensures forall m :: 0 <= m < n ==> ClientKey(s[m]) != k
    decreases |s|
  {
    if k in ClientKeys(Init(s)) then
      var n := FirstIndex(Init(s), k);
      assert forall m :: 0 <= m <= n ==> s[m] == Init(s)[m];
      n
    else
      ClientKeysSpec(Init(s));
      assert k == ClientKey(Last(s));
      assert forall m :: 0 <= m < |s| - 1 ==> Init(s)[m] in Init(s) && s[m] == Init(s)[m];
      |s| - 1
  }

  /** Clients come in the order their keys first appear in the store. */
  lemma {:induction false} KeysInFirstAppearanceOrder(s: seq<Appointment>)
    ensures forall i, j :: 0 <= i < j < |ClientKeys(s)| ==> FirstIndex(s, ClientKeys(s)[i]) < FirstIndex(s, ClientKeys(s)[j])
    decreases |s|
  {
    if s != [] {
      var t := Init(s);
      KeysInFirstAppearanceOrder(t);
      var ks := ClientKeys(s);
      forall i, j | 0 <= i < j < |ks| ensures FirstIndex(s, ks[i]) < FirstIndex(s, ks[j]) {
        assert ks[i] in ClientKeys(t);
        if j < |ClientKeys(t)| {
          assert ks[j] in ClientKeys(t);
        }
      }
    }
  }

  // ---------------------------------------------------------------------------
  // Reliability

  /** A resolved appointment strictly before `now`. */
  predicate Counts(apt: Appointment, now: int)
  {
    HasDateTime(apt) && DateTime(apt).value < now && apt.status != NoStatus
  }

  function CountingAppointments(appointments: seq<Appointment>, now: int): seq<Appointment>
  {
    Filter(appointments, a => Counts(a, now))
  }

  /** The verdict on a client's history: decided by the last resolved past
      appointment, neutral when there is none. */
  function Classify(appointments: seq<Appointment>, now: int): Reliability
  {
    var past := CountingAppointments(appointments, now);
    if past == [] then Neutral
    else if Last(past).status == Missed then Unreliable
    else Reliable
  }

  /** `clients.find(c => c.id === clientId)` */
  function FindClient(clients: seq<ClientData>, id: string): (r: Option<ClientData>)
    ensures r.Some? ==> r.value in clients && r.value.id == id
    ensures r.None? <==> id !in Ids(clients)
    decreases |clients|
  {
    if clients == [] then None
    else if clients[0].id == id then
      assert Ids(clients)[0] == id;
      Some(clients[0])
    else
      assert Ids(clients) == [clients[0].id] + Ids(clients[1..]);
      FindClient(clients[1..], id)
  }

  /** With distinct ids, looking up a client's id finds that client. */
  lemma {:induction false} FindClientDistinct(clients: seq<ClientData>, i: nat)
    requires i < |clients| && Distinct(Ids(clients))
    ensures FindClient(clients, clients[i].id) == Some(clients[i])
    decreases |clients|
  {
    if i > 0 {
      assert Ids(clients)[0] != Ids(clients)[i];
      assert Ids(clients[1..]) == Ids(clients)[1..];
      FindClientDistinct(clients[1..], i - 1);
    }
  }

  /** `getClientReliability`: neutral for an unknown id, else the client's verdict. */
  function ClientReliability(clients: seq<ClientData>, id: string, now: int): Reliability
  {
    match FindClient(clients, id)
    case None => Neutral
    case Some(c) => Classify(c.appointments, now)
  }

  /** Neutral exactly when no appointment is both resolved and strictly past. */
  lemma ClassifyNeutral(appointments: seq<Appointment>, now: int)
    ensures Classify(appointments, now) == Neutral <==> forall a :: a in appointments ==> !Counts(a, now)
  {
    FilterMembership(appointments, a => Counts(a, now));
    if forall a :: a in appointments ==> !Counts(a, now) {
      FilterKeepsNone(appointments, a => Counts(a, now));
    } else {
      var a :| a in appointments && Counts(a, now);
      assert a in CountingAppointments(appointments, now);
    }
  }

  /** The last resolved past appointment decides: missed gives unreliable, arrived reliable. */
  lemma {:induction false} ClassifyByLast(appointments: seq<Appointment>, now: int, i: nat)
    requires i < |appointments| && Counts(appointments[i], now)
    requires forall j :: i < j < |appointments| ==> !Counts(appointments[j], now)
    ensures Classify(appointments, now) == if appointments[i].status == Missed then Unreliable else Reliable
    decreases |appointments|
  {
    var p := (a: Appointment) => Counts(a, now);
    var t := Init(appointments);
    if i == |appointments| - 1 {
      assert Last(CountingAppointments(appointments, now)) == appointments[i];
    } else {
      assert forall j :: i < j < |t| ==> t[j] == appointments[j];
      ClassifyByLast(t, now, i);
      assert CountingAppointments(appointments, now) == CountingAppointments(t, now);
    }
  }

  /** An appointment that does not count (future, or unresolved) never changes the verdict. */
  lemma ClassifyIgnores(before: seq<Appointment>, x: Appointment, after: seq<Appointment>, now: int)
    requires !Counts(x, now)
    ensures Classify(before + [x] + after, now) == Classify(before + after, now)
  {
    var p := (a: Appointment) => Counts(a, now);
    FilterAppend(before + [x], after, p);
    FilterAppend(before, [x], p);
    FilterAppend(before, after, p);
    assert Init([x]) == [];
  }

  /** A client whose only resolved past appointment was missed is unreliable;
      marking that appointment arrived instead makes the client reliable. */
  lemma ClassifyFlip(a: Appointment, others: seq<Appointment>, now: int)
    requires HasDateTime(a) && DateTime(a).value < now
    requires forall o :: o in others ==> !Counts(o, now)
    ensures Classify(others + [a.(status := Missed)], now) == Unreliable
    ensures Classify(others + [a.(status := Arrived)], now) == Reliable
  {
    var p := (x: Appointment) => Counts(x, now);
    FilterKeepsNone(others, p);
    assert Init(others + [a.(status := Missed)]) == others;
    assert Init(others + [a.(status := Arrived)]) == others;
  }

  /** A missed visit followed by an arrived one, both before now: the later one wins. */
  lemma ExampleDates()
    ensures ParseIsoDate("2024-01-10") == Some(19732)
    ensures ParseIsoDate("2024-01-15") == Some(19737)
    ensures ParseIsoDate("2024-01-20") == Some(19742)
  {
    assert "2024-01-10" == FormatIsoDate(2024, 1, 10);
    assert "2024-01-15" == FormatIsoDate(2024, 1, 15);
    assert "2024-01-20" == FormatIsoDate(2024, 1, 20);
    ParseFormatIsoDate(2024, 1, 10);
    ParseFormatIsoDate(2024, 1, 15);
    ParseFormatIsoDate(2024, 1, 20);
    ExampleDays();
  }

  lemma ExampleDays()
    ensures DaysFromCivil(2024, 1, 10) == 19732
    ensures DaysFromCivil(2024, 1, 15) == 19737
    ensures DaysFromCivil(2024, 1, 20) == 19742
  {
  }

  lemma ExampleTimes()
    ensures ParseTime("10:00") == Some(600) && ParseTime("12:00") == Some(720)
  {
    assert "10:00" == FormatTime(600);
    assert "12:00" == FormatTime(720);
    ParseFormatTime(600);
    ParseFormatTime(720);
  }

  lemma ExampleMoments()
    ensures Moment("2024-01-10", "10:00") == Some((19732 * MinutesPerDay + 600) * MsPerMinute)
    ensures Moment("2024-01-15", "10:00") == Some((19737 * MinutesPerDay + 600) * MsPerMinute)
    ensures Moment("2024-01-20", "12:00") == Some((19742 * MinutesPerDay + 720) * MsPerMinute)
  {
    ExampleDates();
    ExampleTimes();
    MomentOfParsed("2024-01-10", "10:00");
    MomentOfParsed("2024-01-15", "10:00");
    MomentOfParsed("2024-01-20", "12:00");
  }

  /** A missed visit on 2024-01-10 followed by an arrival on 2024-01-15, looked
      at on 2024-01-20: the later one wins. */
  lemma ClassifyExample(a: Appointment, b: Appointment, now: int)
    requires a.date == "2024-01-10" && a.time == "10:00" && a.status == Missed
    requires b.date == "2024-01-15" && b.time == "10:00" && b.status == Arrived
    requires Moment("2024-01-20", "12:00") == Some(now)
    ensures Classify([a, b], now) == Reliable
  {
    ExampleMoments();
    assert DateTime(a).value < now && DateTime(b).value < now;
    ClassifyLastOfTwo(a, b, now);
  }

  lemma ClassifyLastOfTwo(a: Appointment, b: Appointment, now: int)
    requires Counts(b, now)
    ensures Classify([a, b], now) == if b.status == Missed then Unreliable else Reliable
  {
    ClassifyByLast([a, b], now, 1);
  }

  /** For any appointment of the store, the verdict looked up by its key is the
      verdict on its client's sorted history; a key no appointment has is neutral. */
  lemma ReliabilityOfStore(s: seq<Appointment>, id: string, now: int)
    ensures id in ClientKeys(s) ==> ClientReliability(Clients(s), id, now) == Classify(SortByDateTime(WithKey(s, id)), now)
    ensures id !in ClientKeys(s) ==> ClientReliability(Clients(s), id, now) == Neutral
  {
    ClientIds(s);
    GroupedSpec(s);
    match FindClient(Clients(s), id)
    case Some(c) =>
      var i :| 0 <= i < |Clients(s)| && Clients(s)[i] == c;
      assert Ids(Clients(s))[i] == id;
    case None =>
  }

  // ---------------------------------------------------------------------------
  // Aggregation: the imperative computation

  /** The `clients` memo of Index.tsx:47-78: a loop fills an insertion-ordered
      map from key to client, pushing each appointment onto its client, then
      each client's list is sorted. */
  method Aggregate(appointments: seq<Appointment>) returns (clients: seq<ClientData>)
    ensures clients == Clients(appointments)
    ensures Distinct(Ids(clients))
    ensures multiset(AllAppointments(clients)) == multiset(appointments)
  {
    var groups := GroupByKey(appointments);
    clients := SortEach(groups);
    ClientIds(appointments);
    DisjointCover(appointments);
  }

  /** The `forEach` of Index.tsx:55-66: the map from key to position plays the
      role of the `Map`, whose values keep insertion order. */
  method GroupByKey(appointments: seq<Appointment>) returns (groups: seq<ClientData>)
    ensures groups == Grouped(appointments)
  {
    var index: map<string, nat> := map[];
    groups := [];
    var i := 0;
    while i < |appointments|
      invariant 0 <= i <= |appointments|
      invariant groups == Grouped(appointments[..i])
      invariant PositionsOf(index, Ids(groups))
    {
      var apt := appointments[i];
      var key := ClientKey(apt);
      GroupedPrefix(appointments, i);
      if key !in index {
        CreateBranch(groups, index, apt);
        index := index[key := |groups|];
        groups := groups + [NewClient(key, apt)];
      } else {
        PushBranch(groups, index, apt);
      }
      var j := index[key];
      groups := groups[j := groups[j].(appointments := groups[j].appointments + [apt])];
      i := i + 1;
    }
    assert appointments[..i] == appointments;
  }

  lemma GroupedPrefix(s: seq<Appointment>, i: nat)
    requires i < |s|
    ensures Grouped(s[..i + 1]) == AddAppointment(Grouped(s[..i]), s[i])
  {
    assert Init(s[..i + 1]) == s[..i];
  }

  /** A key not yet in the map: a new client is appended at the end and the
      appointment pushed onto it. */
  lemma CreateBranch(groups: seq<ClientData>, index: map<string, nat>, apt: Appointment)
    requires PositionsOf(index, Ids(groups)) && ClientKey(apt) !in index
    ensures var h := groups + [NewClient(ClientKey(apt), apt)];
      var j := |groups|;
      h[j := h[j].(appointments := h[j].appointments + [apt])] == AddAppointment(groups, apt)
      && PositionsOf(index[ClientKey(apt) := j], Ids(AddAppointment(groups, apt)))
  {
    var key := ClientKey(apt);
    CreateStep(groups, apt);
    PositionsAppend(index, Ids(groups), key);
    var h := groups + [NewClient(key, apt)];
    IdsUpdate(h, |groups|, h[|groups|].(appointments := h[|groups|].appointments + [apt]));
  }

  /** A key already in the map: the appointment is pushed onto its client. */
  lemma PushBranch(groups: seq<ClientData>, index: map<string, nat>, apt: Appointment)
    requires PositionsOf(index, Ids(groups)) && ClientKey(apt) in index
    ensures var j := index[ClientKey(apt)];
      j < |groups| && groups[j := groups[j].(appointments := groups[j].appointments + [apt])] == AddAppointment(groups, apt)
      && PositionsOf(index, Ids(AddAppointment(groups, apt)))
  {
    var j := index[ClientKey(apt)];
    PushStep(groups, apt, j);
    IdsUpdate(groups, j, groups[j].(appointments := groups[j].appointments + [apt]));
  }

  /** `index` maps exactly the keys of `ks` to their positions. */
  ghost predicate PositionsOf(index: map<string, nat>, ks: seq<string>)
  {
    (forall k :: k in index <==> k in ks)
    && forall k :: k in index ==> IndexOf(ks, k) == Some(index[k])
  }

  lemma PositionsAppend(index: map<string, nat>, ks: seq<string>, k: string)
    requires PositionsOf(index, ks) && k !in index
    ensures PositionsOf(index[k := |ks|], ks + [k])
  {
    IndexOfAppend(ks, k);
  }

  /** The `forEach` of Index.tsx:69-75: each client's list is sorted in place. */
  method SortEach(groups: seq<ClientData>) returns (clients: seq<ClientData>)
    ensures |clients| == |groups|
    ensures forall m :: 0 <= m < |groups| ==> clients[m] == SortClient(groups[m])
  {
    clients := groups;
    var n := 0;
    while n < |clients|
      invariant 0 <= n <= |clients| == |groups|
      invariant forall m :: 0 <= m < n ==> clients[m] == SortClient(groups[m])
      invariant forall m :: n <= m < |clients| ==> clients[m] == groups[m]
    {
      clients := clients[n := clients[n].(appointments := SortByDateTime(clients[n].appointments))];
      n := n + 1;
    }
  }

  /** Pushing onto a client that exists is the turn of the `forEach`. */
  lemma PushStep(g: seq<ClientData>, apt: Appointment, j: nat)
    requires IndexOf(Ids(g), ClientKey(apt)) == Some(j)
    ensures j < |g| && AddAppointment(g, apt) == g[j := g[j].(appointments := g[j].appointments + [apt])]
  {
  }

  /** Creating an empty client and pushing onto it is the turn of the `forEach`. */
  lemma CreateStep(g: seq<ClientData>, apt: Appointment)
    requires ClientKey(apt) !in Ids(g)
    ensures var h := g + [NewClient(ClientKey(apt), apt)];
      AddAppointment(g, apt) == h[|g| := h[|g|].(appointments := h[|g|].appointments + [apt])]
    ensures Ids(g + [NewClient(ClientKey(apt), apt)]) == Ids(g) + [ClientKey(apt)]
  {
    var c := NewClient(ClientKey(apt), apt);
    IdsAppend(g, c);
    assert IndexOf(Ids(g), ClientKey(apt)) == None;
    assert c.appointments + [apt] == [apt];
    assert (g + [c])[|g| := c.(appointments := [apt])] == g + [c.(appointments := [apt])];
  }

  lemma IndexOfAppend(ks: seq<string>, k: string)
    requires k !in ks
    ensures IndexOf(ks + [k], k) == Some(|ks|)
    ensures forall k' :: k' in ks ==> IndexOf(ks + [k], k') == IndexOf(ks, k')
  {
    IndexOfPrefix(ks, [k]);
  }

  lemma {:induction false} IndexOfPrefix(ks: seq<string>, more: seq<string>)
    ensures forall k :: k in ks ==> IndexOf(ks + more, k) == IndexOf(ks, k)
    ensures forall k :: k !in ks && k in more ==> IndexOf(ks + more, k).Some? && IndexOf(ks + more, k).value == |ks| + IndexOf(more, k).value
    decreases |ks|
  {
    if ks != [] {
      IndexOfPrefix(ks[1..], more);
      assert (ks + more)[1..] == ks[1..] + more;
    } else {
      assert ks + more == more;
    }
  }
}
