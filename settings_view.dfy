/** Backup and restore (src/components/SettingsView.tsx). The backup keeps the
    records dated today or later; a restore keeps the store's records dated
    before today and appends the backup's records. "Today" is the local day
    number of the clock, given as a parameter; the JSON text itself is not
    modelled, only what parsing it yields. */
module SettingsView {
  import opened Seqs
  import opened Text
  import opened Dates
  import opened Index

  /** `new Date(apt.date)` set to midnight: the record's day, None for an Invalid Date. */
  function AppointmentDay(apt: Appointment): Option<int>
  {
    ParseIsoDate(apt.date)
  }

  /** `aptDate >= today`; an Invalid Date compares false. */
  predicate IsFuture(apt: Appointment, today: int)
  {
    AppointmentDay(apt).Some? && AppointmentDay(apt).value >= today
  }

  /** `aptDate < today`; an Invalid Date compares false. */
  predicate IsPast(apt: Appointment, today: int)
  {
    AppointmentDay(apt).Some? && AppointmentDay(apt).value < today
  }

  /** `getFutureAppointments` */
  function FutureAppointments(s: seq<Appointment>, today: int): seq<Appointment>
  {
    Filter(s, (a: Appointment) => IsFuture(a, today))
  }

  /** The records a restore keeps. */
  function PastAppointments(s: seq<Appointment>, today: int): seq<Appointment>
  {
    Filter(s, (a: Appointment) => IsPast(a, today))
  }

  /** Future and past records are disjoint, each keeps store order, a record
      with an unreadable date is in neither, and when every date is readable
      the two together are exactly the store. */
  lemma FuturePastSpec(s: seq<Appointment>, today: int)
    ensures forall a :: a in FutureAppointments(s, today) <==> a in s && IsFuture(a, today)
    ensures forall a :: a in PastAppointments(s, today) <==> a in s && IsPast(a, today)
    ensures forall a :: a in FutureAppointments(s, today) ==> a !in PastAppointments(s, today)
    ensures forall a :: a in s && AppointmentDay(a).None? ==>
      a !in FutureAppointments(s, today) && a !in PastAppointments(s, today)
    ensures IsSubsequence(FutureAppointments(s, today), s) && IsSubsequence(PastAppointments(s, today), s)
    ensures (forall a :: a in s ==> AppointmentDay(a).Some?) ==>
      multiset(PastAppointments(s, today)) + multiset(FutureAppointments(s, today)) == multiset(s)
      && |PastAppointments(s, today)| + |FutureAppointments(s, today)| == |s|
  {
    FilterMembership(s, (a: Appointment) => IsFuture(a, today));
    FilterMembership(s, (a: Appointment) => IsPast(a, today));
    FilterIsSubsequence(s, (a: Appointment) => IsFuture(a, today));
    FilterIsSubsequence(s, (a: Appointment) => IsPast(a, today));
    if forall a :: a in s ==> AppointmentDay(a).Some? {
      FilterPartition(s, (a: Appointment) => IsPast(a, today), (a: Appointment) => IsFuture(a, today));
    }
  }

  /** The backup document: `{ version, timestamp, appointments }`. */
  datatype Backup = Backup(version: nat, timestamp: string, appointments: seq<Appointment>)

  /** `handleBackup`: version 1, the clock's ISO timestamp, the future records. */
  function MakeBackup(s: seq<Appointment>, today: int, timestamp: string): (b: Backup)
    ensures b.version == 1 && b.timestamp == timestamp
  {
    Backup(1, timestamp, FutureAppointments(s, today))
  }

  /** A backup holds exactly the store's records dated today or later, each as
      often as the store does, in store order, and none dated before today. */
  lemma MakeBackupSpec(s: seq<Appointment>, today: int, timestamp: string)
    ensures forall a :: a in MakeBackup(s, today, timestamp).appointments <==> a in s && IsFuture(a, today)
    ensures forall a :: a in MakeBackup(s, today, timestamp).appointments ==> !IsPast(a, today)
    ensures forall a :: multiset(MakeBackup(s, today, timestamp).appointments)[a] == (if IsFuture(a, today) then multiset(s)[a] else 0)
    ensures IsSubsequence(MakeBackup(s, today, timestamp).appointments, s)
    ensures |MakeBackup(s, today, timestamp).appointments| <= |s|
  {
    FilterCount(s, (a: Appointment) => IsFuture(a, today));
    FilterMembership(s, (a: Appointment) => IsFuture(a, today));
    FuturePastSpec(s, today);
    FilterLength(s, (a: Appointment) => IsFuture(a, today));
  }

  /** The download name: `autoservice-backup-<date part of the timestamp>.json`. */
  function BackupFileName(timestamp: string): string
  {
    "autoservice-backup-" + Split(timestamp, 'T')[0] + ".json"
  }

  /** For an ISO timestamp the name carries its calendar date, which reads back
      as the same day. */
  lemma BackupFileNameSpec(y: nat, m: nat, d: nat, rest: string)
    requires IsValidCivil(y, m, d) && y < 10000
    ensures BackupFileName(FormatIsoDate(y, m, d) + "T" + rest) == "autoservice-backup-" + FormatIsoDate(y, m, d) + ".json"
    ensures |BackupFileName(FormatIsoDate(y, m, d) + "T" + rest)| == 34
    ensures ParseIsoDate(BackupFileName(FormatIsoDate(y, m, d) + "T" + rest)[19..29]) == Some(DaysFromCivil(y, m, d))
  {
    var date := FormatIsoDate(y, m, d);
    ParseFormatIsoDate(y, m, d);
    Pad4RoundTrip(y);
    Pad2RoundTrip(m);
    Pad2RoundTrip(d);
    assert date == Pad4(y) + "-" + Pad2(m) + "-" + Pad2(d);
    assert forall i :: 0 <= i < 10 ==> date[i] != 'T' by {
      forall i | 0 <= i < 10 ensures date[i] != 'T' {
        if i < 4 { assert date[i] == Pad4(y)[i]; }
        else if 5 <= i < 7 { assert date[i] == Pad2(m)[i - 5]; }
        else if 8 <= i { assert date[i] == Pad2(d)[i - 8]; }
      }
    }
    assert 'T' !in date;
    SplitAtFirst(date, rest, 'T');
    var name := BackupFileName(date + "T" + rest);
    assert name[19..29] == date;
  }

  /** What reading the chosen file yields. A JSON `appointments` value that is
      falsy is Missing; a truthy value that is not an array is NotArray. */
  datatype BackupField = Missing | NotArray | Records(records: seq<Appointment>)
  datatype BackupFile = NoFile | Unparsable | Parsed(appointments: BackupField)

  datatype RestoreError = NothingChosen | ReadError

  /** `handleRestore`: without a file nothing happens; a parse error or a bad
      `appointments` field ends in the error toast; otherwise the store becomes
      its past records followed by the backup's records. */
  function Restore(s: seq<Appointment>, file: BackupFile, today: int): (r: Result<seq<Appointment>, RestoreError>)
    ensures r.Failure? <==> !(file.Parsed? && file.appointments.Records?)
    ensures file.NoFile? ==> r == Failure(NothingChosen)
  {
    match file
    case NoFile => Failure(NothingChosen)
    case Unparsable => Failure(ReadError)
    case Parsed(Records(records)) => Success(PastAppointments(s, today) + records)
    case Parsed(_) => Failure(ReadError)
  }

  /** A successful restore keeps exactly the store's records dated before today,
      in order, followed by every backup record in the file's order; in
      particular an empty backup array is accepted and drops every record dated
      today or later. */
  lemma RestoreSpec(s: seq<Appointment>, records: seq<Appointment>, today: int)
    ensures Restore(s, Parsed(Records(records)), today).Success?
    ensures var r := Restore(s, Parsed(Records(records)), today).value;
      r[..|r| - |records|] == PastAppointments(s, today) && r[|r| - |records|..] == records
    ensures forall a :: a in Restore(s, Parsed(Records(records)), today).value <==>
      (a in s && IsPast(a, today)) || a in records
    ensures Restore(s, Parsed(Records([])), today) == Success(PastAppointments(s, today))
  {
    var past := PastAppointments(s, today);
    FilterMembership(s, (a: Appointment) => IsPast(a, today));
    var r := Restore(s, Parsed(Records(records)), today).value;
    assert r == past + records;
    assert r[..|past|] == past && r[|past|..] == records;
    assert past + [] == past;
  }

  /** Restoring, the same day, the backup just made from the store gives the
      past records followed by the future ones: every record with a readable
      date survives, a record with an unreadable date is lost, and when every
      date is readable the result is a permutation of the store. */
  lemma BackupRestoreRoundTrip(s: seq<Appointment>, today: int, timestamp: string)
    ensures var b := MakeBackup(s, today, timestamp);
      Restore(s, Parsed(Records(b.appointments)), today) ==
        Success(PastAppointments(s, today) + FutureAppointments(s, today))
    ensures var b := MakeBackup(s, today, timestamp);
      forall a :: a in Restore(s, Parsed(Records(b.appointments)), today).value <==> a in s && AppointmentDay(a).Some?
    ensures var b := MakeBackup(s, today, timestamp);
      (forall a :: a in s ==> AppointmentDay(a).Some?) ==>
        multiset(Restore(s, Parsed(Records(b.appointments)), today).value) == multiset(s)
  {
    FuturePastSpec(s, today);
    var r := PastAppointments(s, today) + FutureAppointments(s, today);
    assert multiset(r) == multiset(PastAppointments(s, today)) + multiset(FutureAppointments(s, today));
  }
}
