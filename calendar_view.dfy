/** The calendar (src/components/CalendarView.tsx): the slot grid, the week
    strip, day navigation, the day's appointments and their grouping by slot.
    The selected date is a local moment (milliseconds, see Dates); the text
    date the store is filtered with is given as a parameter. */
module CalendarView {
  import opened Seqs
  import opened Dates
  import opened Index

  /** Slots start at 09:00 and end at 20:00, every half hour. */
  const FirstSlot: nat := 540
  const SlotLength: nat := 30
  const SlotCount: nat := 23

  /** Minute of day of the i-th slot. */
  function SlotMinute(i: nat): (m: nat)
    requires i < SlotCount
    ensures m < MinutesPerDay
  {
    FirstSlot + SlotLength * i
  }

  /** `${pad(hour)}:${minute}`, written with the same padding as FormatTime. */
  lemma HourLabels(hour: nat)
    requires 9 <= hour <= 20
    ensures Pad2(hour) + ":00" == FormatTime(hour * 60)
    ensures hour < 20 ==> Pad2(hour) + ":30" == FormatTime(hour * 60 + 30)
  {
    assert (hour * 60) / 60 == hour && (hour * 60) % 60 == 0;
    assert (hour * 60 + 30) / 60 == hour && (hour * 60 + 30) % 60 == 30;
  }

  /** `generateTimeSlots`: hours 9 to 20, each with ":00" and, before 20, ":30". */
  method GenerateTimeSlots() returns (slots: seq<string>)
    ensures |slots| == SlotCount
    ensures forall i :: 0 <= i < |slots| ==> slots[i] == FormatTime(SlotMinute(i))
  {
    slots := [];
    var hour := 9;
    while hour <= 20
      invariant 9 <= hour <= 21
      invariant |slots| == if hour <= 20 then 2 * (hour - 9) else SlotCount
      invariant forall i :: 0 <= i < |slots| ==> slots[i] == FormatTime(SlotMinute(i))
    {
      HourLabels(hour);
      slots := slots + [Pad2(hour) + ":00"];
      if hour < 20 {
        slots := slots + [Pad2(hour) + ":30"];
      }
      hour := hour + 1;
    }
  }

  /** The slot labels, for the lemmas (the method computes exactly these). */
  function TimeSlots(): (slots: seq<string>)
    ensures |slots| == SlotCount
  {
    seq(SlotCount, i requires 0 <= i < SlotCount => FormatTime(SlotMinute(i)))
  }

  /** The grid is 23 well-formed `hh:mm` times from 09:00 to 20:00, strictly
      ascending in steps of 30 minutes, without 20:30. */
  lemma TimeSlotsSpec()
    ensures forall i :: 0 <= i < SlotCount ==> ParseTime(TimeSlots()[i]) == Some(SlotMinute(i))
    ensures TimeSlots()[0] == "09:00" && TimeSlots()[SlotCount - 1] == "20:00"
    ensures forall i, j :: 0 <= i < j < SlotCount ==>
      ParseTime(TimeSlots()[i]).Some? && ParseTime(TimeSlots()[j]).Some? &&
      ParseTime(TimeSlots()[i]).value < ParseTime(TimeSlots()[j]).value
    ensures "20:30" !in TimeSlots()
  {
    forall i | 0 <= i < SlotCount ensures ParseTime(TimeSlots()[i]) == Some(SlotMinute(i)) {
      ParseFormatTime(SlotMinute(i));
    }
    assert FormatTime(540) == "09:00";
    assert FormatTime(1200) == "20:00";
    assert FormatTime(1230) == "20:30";
    ParseFormatTime(1230);
  }

  // ---------------------------------------------------------------------------
  // Week strip and day names

  /** The day labels of the strip, Monday first. */
  const Days: seq<string> := ["Пн", "Вт", "Ср", "Чт", "Пт", "Сб", "Вс"]

  /** Position of a weekday (`getDay()`, Sunday 0) in the Monday-first lists. */
  function DayNameIndex(weekday: nat): (k: nat)
    requires weekday < 7
    ensures k < 7
  {
    if weekday == 0 then 6 else weekday - 1
  }

  /** Distinct weekdays get distinct labels, Monday the first and Sunday the last. */
  lemma DayNameIndexInjective()
    ensures forall a, b :: 0 <= a < 7 && 0 <= b < 7 && DayNameIndex(a) == DayNameIndex(b) ==> a == b
    ensures Days[DayNameIndex(1)] == "Пн" && Days[DayNameIndex(0)] == "Вс"
  {
  }

  /** Seven consecutive days from `first`. */
  function WeekFrom(first: int): (week: seq<int>)
    ensures |week| == 7
  {
    seq(7, i requires 0 <= i < 7 => first + i)
  }

  /** The week `getWeekDates` shows: it starts at `date - getDay() + 1`. */
  function WeekOf(day: int): seq<int>
  {
    WeekFrom(day - Weekday(day) + 1)
  }

  /** `getWeekDates`: a loop steps a copy of the Monday forward one day at a time. */
  method WeekDates(day: int) returns (week: seq<int>)
    ensures week == WeekOf(day)
  {
    var monday := day - Weekday(day) + 1;
    week := [];
    var i := 0;
    while i < 7
      invariant 0 <= i <= 7
      invariant week == seq(i, k requires 0 <= k < i => monday + k)
    {
      week := week + [monday + i];
      i := i + 1;
    }
  }

  /** Monday to Saturday: the strip starts on a Monday and holds the date at
      index `getDay() - 1`. A Sunday: the strip is the following Monday to
      Sunday and does not hold the date. */
  lemma WeekOfSpec(day: int)
    ensures Weekday(day) != 0 ==> Weekday(WeekOf(day)[0]) == 1 && WeekOf(day)[Weekday(day) - 1] == day
    ensures Weekday(day) == 0 ==> WeekOf(day)[0] == day + 1 && day !in WeekOf(day)
  {
  }

  /** The Monday-to-Sunday week holding the date, as the labels intend. */
  function MondayWeek(day: int): seq<int>
  {
    WeekFrom(day - DayNameIndex(Weekday(day)))
  }

  /** The intended week starts on a Monday, holds the date under its own label,
      gives day i of the week label i, and agrees with the strip on every day
      but Sunday. */
  lemma MondayWeekSpec(day: int)
    ensures Weekday(MondayWeek(day)[0]) == 1
    ensures MondayWeek(day)[DayNameIndex(Weekday(day))] == day
    ensures day in MondayWeek(day)
    ensures forall i :: 0 <= i < 7 ==> DayNameIndex(Weekday(MondayWeek(day)[i])) == i
    ensures Weekday(day) != 0 ==> MondayWeek(day) == WeekOf(day)
  {
    assert MondayWeek(day)[DayNameIndex(Weekday(day))] == day;
  }

  // ---------------------------------------------------------------------------
  // Navigation

  /** `goToPrevDay` / `goToNextDay`: the same time of day, one day earlier or later. */
  function PrevDay(selected: int): int
  {
    selected - MsPerDay
  }

  function NextDay(selected: int): int
  {
    selected + MsPerDay
  }

  /** `goToToday` */
  function GoToToday(now: int): int
  {
    now
  }

  /** `isToday`: the same calendar day, whatever the time of day. */
  predicate IsToday(selected: int, now: int)
  {
    DayOf(selected) == DayOf(now)
  }

  /** Next and previous move exactly one calendar day and undo each other; today is today. */
  lemma NavigationSpec(selected: int, now: int)
    ensures DayOf(NextDay(selected)) == DayOf(selected) + 1
    ensures DayOf(PrevDay(selected)) == DayOf(selected) - 1
    ensures NextDay(selected) % MsPerDay == selected % MsPerDay == PrevDay(selected) % MsPerDay
    ensures PrevDay(NextDay(selected)) == selected && NextDay(PrevDay(selected)) == selected
    ensures IsToday(GoToToday(now), now)
    ensures IsToday(selected, now) ==> !IsToday(NextDay(selected), now) && !IsToday(PrevDay(selected), now)
  {
  }

  // ---------------------------------------------------------------------------
  // The day's appointments and their slots

  /** `dayAppointments`: the records whose date text is the selected date. */
  function DayAppointments(s: seq<Appointment>, selectedDate: string): seq<Appointment>
  {
    Filter(s, (a: Appointment) => a.date == selectedDate)
  }

  lemma DayAppointmentsSpec(s: seq<Appointment>, selectedDate: string)
    ensures forall a :: a in DayAppointments(s, selectedDate) <==> a in s && a.date == selectedDate
    ensures IsSubsequence(DayAppointments(s, selectedDate), s)
    ensures forall a :: multiset(DayAppointments(s, selectedDate))[a] == if a.date == selectedDate then multiset(s)[a] else 0
  {
    FilterCount(s, (a: Appointment) => a.date == selectedDate);
    FilterMembership(s, (a: Appointment) => a.date == selectedDate);
    FilterIsSubsequence(s, (a: Appointment) => a.date == selectedDate);
  }

  /** The records of `s` at the time text `t`, in order. */
  function AtTime(s: seq<Appointment>, t: string): seq<Appointment>
  {
    Filter(s, (a: Appointment) => a.time == t)
  }

  /** The map `appointmentsByTime` holds: one entry per time that occurs. */
  function Buckets(day: seq<Appointment>): map<string, seq<Appointment>>
  {
    map t | t in (set a | a in day :: a.time) :: AtTime(day, t)
  }

  lemma AtTimeAppend(s: seq<Appointment>, x: Appointment, t: string)
    ensures AtTime(s + [x], t) == AtTime(s, t) + (if x.time == t then [x] else [])
  {
    assert Init(s + [x]) == s;
  }

  /** `appointmentsByTime`: one pass over the day, creating a bucket on the
      first record at a time and pushing every record onto its bucket. */
  method BucketByTime(day: seq<Appointment>) returns (buckets: map<string, seq<Appointment>>)
    ensures buckets == Buckets(day)
  {
    buckets := map[];
    var i := 0;
    while i < |day|
      invariant 0 <= i <= |day|
      invariant forall t :: t in buckets <==> exists a :: a in day[..i] && a.time == t
      invariant forall t :: t in buckets ==> buckets[t] == AtTime(day[..i], t)
    {
      var apt := day[i];
      assert day[..i + 1] == day[..i] + [apt];
      forall t ensures AtTime(day[..i + 1], t) == AtTime(day[..i], t) + (if apt.time == t then [apt] else []) {
        AtTimeAppend(day[..i], apt, t);
      }
      if apt.time !in buckets {
        buckets := buckets[apt.time := []];
        FilterMembership(day[..i], (a: Appointment) => a.time == apt.time);
        FilterKeepsNone(day[..i], (a: Appointment) => a.time == apt.time);
      }
      buckets := buckets[apt.time := buckets[apt.time] + [apt]];
      i := i + 1;
    }
    assert day[..i] == day;
  }

  /** `appointmentsByTime.get(time) || []`: the list a slot shows. */
  function SlotAppointments(buckets: map<string, seq<Appointment>>, time: string): seq<Appointment>
  {
    if time in buckets then buckets[time] else []
  }

  /** A slot shows exactly the day's records at its time, in store order (an
      empty list when there are none); every record of the day is in exactly
      one bucket; a record whose time is not on the grid is in no slot. */
  lemma SlotAppointmentsSpec(day: seq<Appointment>, time: string)
    ensures SlotAppointments(Buckets(day), time) == AtTime(day, time)
    ensures forall a :: a in SlotAppointments(Buckets(day), time) <==> a in day && a.time == time
    ensures forall a :: a in day ==> a.time in Buckets(day) && a in Buckets(day)[a.time]
    ensures forall a :: a in day && a.time !in TimeSlots() ==>
      forall i :: 0 <= i < SlotCount ==> a !in SlotAppointments(Buckets(day), TimeSlots()[i])
  {
    SlotIsAtTime(day, time);
    FilterMembership(day, (a: Appointment) => a.time == time);
    forall a | a in day ensures a.time in Buckets(day) && a in Buckets(day)[a.time] {
      InOwnBucket(day, a);
    }
    forall a, i | a in day && a.time !in TimeSlots() && 0 <= i < SlotCount
      ensures a !in SlotAppointments(Buckets(day), TimeSlots()[i])
    {
      SlotIsAtTime(day, TimeSlots()[i]);
      FilterMembership(day, (x: Appointment) => x.time == TimeSlots()[i]);
    }
  }

  lemma SlotIsAtTime(day: seq<Appointment>, time: string)
    ensures SlotAppointments(Buckets(day), time) == AtTime(day, time)
  {
    if time !in Buckets(day) {
      FilterMembership(day, (a: Appointment) => a.time == time);
      FilterKeepsNone(day, (a: Appointment) => a.time == time);
    }
  }

  lemma InOwnBucket(day: seq<Appointment>, a: Appointment)
    requires a in day
    ensures a.time in Buckets(day) && a in Buckets(day)[a.time]
  {
    FilterMembership(day, (x: Appointment) => x.time == a.time);
  }
}
