# Auto-shop appointment book — a Dafny model

The application keeps one list of appointments: a car (brand, model, optional
plate and colour), a date, a half-hour time and an optional status (arrived or
missed). Every other screen works from that list:

- the calendar shows a half-hour grid for the selected day and a week strip;
- the client list groups appointments into clients by plate, or by
  brand/model/colour when there is no plate, and rates each client as
  reliable, unreliable or neutral from its last resolved past visit;
- the settings screen backs up today's and later appointments and restores a
  backup on top of the earlier ones;
- the car catalogue lists brands and their models;
- three forms build a new appointment, edit one, and edit a client.

The model has one Dafny module per source file, plus four helper modules:

- `Seqs`: filter and subsequence.
- `Text`: case mapping, whitespace, trim, split/join and string order.
- `Dates`: ISO 8601 `YYYY-MM-DD` dates as day numbers, with 0 for 1970-01-01.
  `hh:mm` times are minutes, and a moment is milliseconds of local time.
  `Weekday` uses 0 for Sunday, like `getDay()`.
- `Sorting`: the stable sort `Array.prototype.sort` performs, as an insertion
  sort with an `after` relation that stands for "the comparator returned a
  positive number".

Three pieces of code keep state and are modelled imperatively:

- The aggregation in `Index.Aggregate` is a loop that fills an
  insertion-ordered map and pushes onto each client's list.
- The slot grid in `CalendarView.GenerateTimeSlots`, the week strip in
  `CalendarView.WeekDates` and the by-time buckets in
  `CalendarView.BucketByTime` are loops as well.
- The choice list in `EditClientDialog.AllCarOptions` is built by nested loops.

Each of these methods is proved equal to a specification function. The
properties are lemmas about that function. The page's appointment state is the
class `AppointmentStore.AppointmentStore`. Its methods replace the list with
the result of the pure transforms.

The clock is a parameter wherever the source reads it: `now` is a moment and
`today` is a day number. Ids drawn from `Date.now()` and `Math.random()` are
parameters too. An `Invalid Date` is `None`. Every comparison with it is
false, as NaN comparisons are in JavaScript. So an appointment with an
unreadable date is neither past nor future and counts toward no verdict. The
date-time comparator is then not a consistent order, and ECMAScript leaves the
order of such a sort to the engine. The model fixes one admissible order: the
stable insertion sort, in which an unreadable appointment never moves.

## Model

| member | source | states |
|---|---|---|
| Index.NormalizePlateIdempotent | src/pages/Index.tsx:51-52 | normalising a normalised plate changes nothing |
| Index.NormalizePlateIgnoresCase | src/pages/Index.tsx:51-52 | a plate and its lower- or upper-cased form give the same key |
| Index.NormalizePlateIgnoresWhitespace | src/pages/Index.tsx:51-52 | inserting a whitespace character anywhere in a plate does not change its key |
| Index.NormalizedPlateIsClean | src/pages/Index.tsx:51-52 | a plate key holds no whitespace and no lower-case letter |
| Index.FallbackKeyParts | src/pages/Index.tsx:53 | without a plate, the key splits at `\|` into brand, model and the colour or "Без цвета" |
| Index.PlateKeyExample | src/pages/Index.tsx:51-52 | "a123bc" and "A123 BC" are the same client, "A123BC" |
| Index.SortByDateTimePermutes | src/pages/Index.tsx:70-74 | sorting a client's list neither loses nor adds an appointment |
| Index.SortByDateTimeStable | src/pages/Index.tsx:70-74 | appointments at the same date-time keep store order, and so do undated ones under the model's insertion sort |
| Index.SortByDateTimeChronological | src/pages/Index.tsx:70-74 | with valid date-times the sorted list is in ascending date-time order |
| Index.IndexOf | src/pages/Index.tsx:55 | the position of a key among the map's keys, or None exactly when it is absent |
| Index.ClientKeysSpec | src/pages/Index.tsx:55-64 | map keys are distinct and are exactly the keys of the appointments |
| Index.GroupedSpec | src/pages/Index.tsx:50-67 | the loop's clients are keyed in first-appearance order, and each holds its key's appointments in store order with the first one's display fields |
| Index.ClientIds | src/pages/Index.tsx:55-77 | client ids are distinct and are exactly the keys of the store's appointments |
| Index.ClientMembers | src/pages/Index.tsx:66 | a client holds exactly the appointments whose key is its id, each as often as in the store |
| Index.ExactlyOneClient | src/pages/Index.tsx:50-67 | every appointment of the store is in exactly one client |
| Index.DisjointCover | src/pages/Index.tsx:50-75 | the clients' lists together are a permutation of the store, of the same total length |
| Index.DisplayFromFirst | src/pages/Index.tsx:56-63 | a client's brand, model, plate and colour are those of the first appointment with its key |
| Index.DisplayFrozen | src/pages/Index.tsx:55-64 | appending an appointment never changes an existing client's display fields |
| Index.ClientAppointmentsOrdered | src/pages/Index.tsx:69-75 | with valid date-times each client's list is chronological; ties keep store order |
| Index.FirstIndex | src/pages/Index.tsx:55-66 | a position in the store of an appointment with the key, with no earlier appointment having that key |
| Index.KeysInFirstAppearanceOrder | src/pages/Index.tsx:55-77 | clients come out in the order their keys first appear in the store |
| Index.Aggregate | src/pages/Index.tsx:47-78 | the map-filling loop and the per-client sort compute exactly the specified clients, with distinct ids and a disjoint cover of the store |
| Index.GroupByKey | src/pages/Index.tsx:55-66 | the loop over an insertion-ordered key-to-position map computes exactly the specified grouping |
| Index.SortEach | src/pages/Index.tsx:69-75 | the loop replaces every client's list by its date-time sort and changes nothing else |
| Index.FindClient | src/pages/Index.tsx:81-82 | finds a client with the id, or None exactly when no client has it |
| Index.FindClientDistinct | src/pages/Index.tsx:81 | with distinct ids, looking up a client's id finds that client |
| Index.ClassifyNeutral | src/pages/Index.tsx:85-90 | the verdict is neutral exactly when no appointment is both before `now` and has a status |
| Index.ClassifyByLast | src/pages/Index.tsx:90-93 | otherwise the last counting appointment decides: missed is unreliable, anything else is reliable |
| Index.ClassifyIgnores | src/pages/Index.tsx:85-88 | adding a future or status-less appointment anywhere does not change the verdict |
| Index.ClassifyFlip | src/pages/Index.tsx:92-93 | a last past visit marked missed makes the client unreliable, marked arrived makes it reliable |
| Index.ClassifyExample | src/pages/Index.tsx:85-93 | a missed visit on 2024-01-10 followed by an arrival on 2024-01-15 is reliable on 2024-01-20 |
| Index.ReliabilityOfStore | src/pages/Index.tsx:80-94 | a known id gets the verdict of its client's sorted history; an unknown id is neutral |
| TimeSlot.ToggledStatus | src/components/TimeSlot.tsx:31-34 | choosing the current status clears it; choosing another status sets it |
| TimeSlot.ToggleStatusEffect | src/components/TimeSlot.tsx:29-37 | a toggle changes only the status of the records with the id; length, order and other records stay |
| TimeSlot.ToggleUnknownId | src/components/TimeSlot.tsx:29-37 | toggling an id no record has changes nothing |
| TimeSlot.ToggleTwice | src/components/TimeSlot.tsx:31-34 | the same toggle twice restores records whose status was none or the chosen one |
| TimeSlot.ToggleTwiceFromOther | src/components/TimeSlot.tsx:31-34 | from the other status, the same toggle twice leaves no status |
| TimeSlot.DeleteByIdSpec | src/components/TimeSlot.tsx:41 | delete keeps exactly the records with another id, each as often as before, in order; an absent id changes nothing |
| TimeSlot.ReplaceByIdSpec | src/components/TimeSlot.tsx:172 | edit-save puts the updated record wherever its id was and leaves other records alone |
| TimeSlot.ClientIdIsClientKey | src/components/TimeSlot.tsx:45-49 | the slot's key is the aggregation's key, and it is one of the clients' ids |
| TimeSlot.ReliabilityClassSpec | src/components/TimeSlot.tsx:51-60 | arrived is green and missed is red whatever the client; otherwise orange exactly when the client is unreliable, which is exactly when the warning of line 103 shows |
| TimeSlot.ToggleExpanded | src/components/TimeSlot.tsx:22-26 | an empty slot never expands or collapses; otherwise the flag flips |
| ClientsView.FilterClientsSpec | src/components/ClientsView.tsx:19-28 | an empty search keeps every client; otherwise a client stays exactly when the search occurs in its brand, model, plate or colour, each as often as before and in order |
| ClientsView.AbsentFieldsNeverMatch | src/components/ClientsView.tsx:26-27 | an absent field never matches; a client without a plate, or without a colour, is found exactly through its other fields |
| ClientsView.ClientStatusSpec | src/components/ClientsView.tsx:31-42 | the badge equals the page's verdict for the client, and is neutral exactly when nothing counts |
| ClientsView.ActiveCountSpec | src/components/ClientsView.tsx:44-50 | with valid date-times, active plus past appointments are all of them; an invalid one is in neither |
| ClientsView.CardHighlightedSpec | src/components/ClientsView.tsx:99 | an orange card has a missed past visit and an appointment to come |
| ClientsView.AppointmentClass | src/components/ClientsView.tsx:62-66 | green exactly for arrived, red exactly for missed, empty exactly with no status |
| CalendarView.GenerateTimeSlots | src/components/CalendarView.tsx:22-31 | the loop yields 23 slots, slot i being the time 09:00 plus 30·i minutes |
| CalendarView.TimeSlotsSpec | src/components/CalendarView.tsx:22-31 | slots read back as 09:00 to 20:00, strictly ascending, 30 minutes apart, without 20:30 |
| CalendarView.DayNameIndexInjective | src/components/CalendarView.tsx:53 | distinct weekdays get distinct labels, Monday "Пн" and Sunday "Вс" |
| CalendarView.WeekDates | src/components/CalendarView.tsx:40-48 | the loop yields 7 consecutive days from `date - getDay() + 1` |
| CalendarView.WeekOfSpec | src/components/CalendarView.tsx:40-48 | Monday to Saturday: the strip starts on a Monday and holds the date at `getDay() - 1`; a Sunday: the strip is the next week and lacks the date |
| CalendarView.MondayWeekSpec | src/components/CalendarView.tsx:40-53 | the Monday-to-Sunday week holds the date under its own label and equals the strip except on Sundays |
| CalendarView.NavigationSpec | src/components/CalendarView.tsx:57-76 | next and previous move one calendar day at the same time of day and undo each other; today is today, its neighbours are not |
| CalendarView.DayAppointmentsSpec | src/components/CalendarView.tsx:78-79 | the day's list is exactly the records with the selected date text, each as often as in the store, in store order |
| CalendarView.BucketByTime | src/components/CalendarView.tsx:81-90 | the loop builds one bucket per occurring time, holding that time's records in order |
| CalendarView.SlotAppointmentsSpec | src/components/CalendarView.tsx:81-90 | a slot shows its time's records, or none (the lookup of line 146); each record is in exactly one bucket; a time off the grid is in no slot |
| SettingsView.FuturePastSpec | src/components/SettingsView.tsx:18-72 | future and past are disjoint, ordered, skip unreadable dates, and with readable dates partition the store |
| SettingsView.MakeBackup | src/components/SettingsView.tsx:29-34 | the document has version 1 and the given timestamp |
| SettingsView.MakeBackupSpec | src/components/SettingsView.tsx:29-34 | a backup holds exactly the store records dated today or later, each as often as in the store, in store order, and none of them is past |
| SettingsView.BackupFileNameSpec | src/components/SettingsView.tsx:40 | the file name is `autoservice-backup-<date>.json`, and its date reads back as the UTC calendar day of the export timestamp |
| SettingsView.Restore | src/components/SettingsView.tsx:52-88 | a restore fails exactly when no file is chosen, the text does not parse, or `appointments` is missing or not an array |
| SettingsView.RestoreSpec | src/components/SettingsView.tsx:65-74 | a restore gives the store's past records in order followed by the backup's records; an empty backup keeps only the past |
| SettingsView.BackupRestoreRoundTrip | src/components/SettingsView.tsx:18-74 | restoring the same day's backup gives past then future; it keeps every readable-dated record and is a permutation when all dates are readable |
| CarsView.AddBrandAsWrittenDuplicates | src/components/CarsView.tsx:28-38 | as written, " BMW" beside "BMW" adds a second "BMW" |
| CarsView.AddBrandSpec | src/components/CarsView.tsx:28-38 | a blank name or a case-insensitive duplicate changes nothing; otherwise the trimmed name is appended with no models; brands stay unique |
| CarsView.AddModelSpec | src/components/CarsView.tsx:40-55 | a blank name changes nothing; otherwise each entry of the brand gets the trimmed name appended unless it already lists it, other entries are unchanged, uniqueness is kept, and adding twice is adding once |
| CarsView.DeleteBrandSpec | src/components/CarsView.tsx:57-60 | every entry with the brand goes, every other entry stays as often as before and in order, unique brands stay unique |
| CarsView.DeleteModelSpec | src/components/CarsView.tsx:62-70 | the model leaves the brand's lists only, every other model stays as often as before and in order, brands unchanged |
| CarsView.SortedCarsSpec | src/components/CarsView.tsx:26 | under any collation that is a strict weak order, the displayed list is a permutation in ascending brand order, and entries whose brands tie, same-brand ones included, stay in catalogue order |
| CarsView.CodePointCollation | src/components/CarsView.tsx:26 | code-point order on brand names is one such collation |
| AppointmentDialog.DefaultTime | src/components/AppointmentDialog.tsx:27 | the slot's time when there is one, else "09:00" |
| AppointmentDialog.AvailableModelsSpec | src/components/AppointmentDialog.tsx:31-34 | the models of the first entry with the brand, or none when no entry has it |
| AppointmentDialog.SelectBrand | src/components/AppointmentDialog.tsx:94-96 | choosing a brand sets it and clears the model, nothing else |
| AppointmentDialog.SetPlate | src/components/AppointmentDialog.tsx:162 | the stored plate is exactly the typed text upper-cased, of the same length, and upper-casing it again changes nothing; no other field changes |
| AppointmentDialog.SaveSpec | src/components/AppointmentDialog.tsx:36-55 | a record exists exactly with brand and model; it has the id, selected date, form time, no status, and empty texts absent |
| AppointmentDialog.SavedPlateKey | src/components/AppointmentDialog.tsx:162 | a typed plate gives the record the client key of that plate, whatever its case |
| AppointmentDialog.Close | src/components/AppointmentDialog.tsx:57-65 | closing with Cancel or after saving clears every text, so the form cannot be saved, and resets the time to the current slot or 09:00 |
| AppointmentDialog.OpenAsWrittenLags | src/components/AppointmentDialog.tsx:27-65 | as written, the form shows the time of the previous opening |
| AppointmentDialog.OpenShowsSlot | src/components/AppointmentDialog.tsx:27-65 | with the time set on opening, the form and the saved record are at the chosen slot |
| EditAppointmentDialog.InitialEditForm | src/components/EditAppointmentDialog.tsx:17-19 | the plate, colour and notes fields start from the record's texts, each shown empty when absent |
| EditAppointmentDialog.SetPlate | src/components/EditAppointmentDialog.tsx:56 | the stored plate is exactly the typed text upper-cased, of the same length, and upper-casing it again changes nothing; no other field changes |
| EditAppointmentDialog.SaveEditSpec | src/components/EditAppointmentDialog.tsx:21-28 | id, date, time, car and status are kept; each text is absent exactly when empty, else verbatim |
| EditAppointmentDialog.SaveUnedited | src/components/EditAppointmentDialog.tsx:17-28 | saving unedited returns the record, with present empty texts made absent |
| EditAppointmentDialog.NewRecordEditsCleanly | src/components/EditAppointmentDialog.tsx:17-28 | a record from the new-appointment form shows its typed texts and saves back unchanged |
| EditClientDialog.AllCarOptions | src/components/EditClientDialog.tsx:27-35 | the nested loops and the sort give exactly the sorted list of `brand model` choices |
| EditClientDialog.CarOptionsSpec | src/components/EditClientDialog.tsx:28-33 | one choice per catalogue model, each `brand model` of an entry |
| EditClientDialog.SortedCarOptionsSpec | src/components/EditClientDialog.tsx:27-35 | the list has the catalogue's model count, is a permutation of the choices, and is in ascending string order |
| EditClientDialog.SplitCarTextSpec | src/components/EditClientDialog.tsx:38-40 | the brand has no space; with a space, brand + " " + model is the text; without one, the model is empty |
| EditClientDialog.CarTextRoundTrip | src/components/EditClientDialog.tsx:20-40 | for a brand without spaces, `brand model` splits back into that brand and model |
| EditClientDialog.SaveClientSpec | src/components/EditClientDialog.tsx:37-51 | nothing is saved with an empty car text; empty texts become absent, others are kept |
| EditClientDialog.SaveClientUnedited | src/components/EditClientDialog.tsx:20-51 | the unedited form saves the client's own brand, model and texts, with empty ones made absent |
| AppointmentStore.AppointmentStore.Add | src/components/CalendarView.tsx:165-167 | a new appointment goes at the end; earlier records are unchanged |
| AppointmentStore.AppointmentStore.SetStatus | src/components/TimeSlot.tsx:28-38 | the list becomes its status toggle; other ids are unchanged |
| AppointmentStore.AppointmentStore.Delete | src/components/TimeSlot.tsx:40-43 | the list becomes its delete-by-id |
| AppointmentStore.AppointmentStore.Replace | src/components/TimeSlot.tsx:171-172 | the list becomes its replace-by-id |
| AppointmentStore.AppointmentStore.Restore | src/components/SettingsView.tsx:52-88 | on success the list is past records plus the backup's; on failure it is unchanged |
| Text.UpperIdempotent | src/components/AppointmentDialog.tsx:162 | upper-casing twice is upper-casing once |
| Text.TrimIdempotent | src/components/CarsView.tsx:28-38 | trimming a trimmed name changes nothing |
| Text.JoinSplit | src/components/EditClientDialog.tsx:38-40 | joining the parts of a split at the same separator gives the text back |
| Text.AbsentIfEmptyOfOrEmpty | src/components/EditAppointmentDialog.tsx:17-26 | shown as `value \|\| ''` and saved as `value \|\| undefined`, a field is unchanged unless it was present and empty |
| Dates.ParseFormatIsoDate | src/pages/Index.tsx:71-72 | a valid calendar date formatted as `YYYY-MM-DD` parses back to its day number |
| Dates.ParseFormatTime | src/pages/Index.tsx:71-72 | a minute of the day formatted as `hh:mm` parses back to itself |
| Dates.MomentMonotonic | src/pages/Index.tsx:71-73 | a later day, or the same day at a later time, is a later moment |
| Sorting.SortStable | src/pages/Index.tsx:70-74 | elements the comparator does not order keep their relative order |
| Sorting.SortSorted | src/pages/Index.tsx:70-74 | with a strict weak order the sorted list has no element before one it must follow |

## Left out

- File I/O, JSON and the download are not modelled: `Blob`, `URL.createObjectURL`, the anchor element, `FileReader`, `JSON.parse`/`JSON.stringify` and the toasts. A restore starts from what parsing yields: no file, unparsable text, a missing or non-array `appointments`, or a list of records. The records inside a backup are not checked individually, and neither does the source check them.
- The backup size estimate `backupSizeKB` (src/components/SettingsView.tsx:94-95) is left out. It is floating-point division and `toFixed`.
- JavaScript `Date` time zones are left out. `toISOString` of a local date (src/components/CalendarView.tsx:78) and `new Date("YYYY-MM-DD")` read as UTC midnight then set to local midnight (src/components/SettingsView.tsx:22-23, 69-70) can shift a date by a day away from UTC. The model reads every date text as a local calendar day. The selected date's text is a parameter. The backup's timestamp and file-name date come from `new Date().toISOString()` (src/components/SettingsView.tsx:32-40), which is the UTC day, while the future/past split uses the local day (src/components/SettingsView.tsx:18-20); the model takes the timestamp as a parameter, so the day the file name reads back as is the UTC export day, which can differ from the local `today`.
- CalendarView.NavigationSpec: one day is 86 400 000 ms. Daylight-saving days, on which `setDate` moves by 23 or 25 hours, are not modelled.
- Date parsing accepts only `YYYY-MM-DD` and `hh:mm`. Other strings that `Date` would accept are treated as invalid.
- CarsView.SortedCars: the Russian ICU collation behind `localeCompare(…, 'ru')` (src/components/CarsView.tsx:26) is not defined in the model. It is a parameter `less`, and the properties are proved for every collation that is a strict weak order. Code-point order is one proved instance, not the real Russian order.
- The default `sort()` UTF-16 order (src/components/EditClientDialog.tsx:34) is modelled as code-point order on characters. The two agree except for characters outside the Basic Multilingual Plane.
- Index.SortByDateTime / Index.Classify: with an unreadable date-time the comparator returns NaN, which is not a consistent comparator, and ECMAScript leaves the sorted order to the engine. The model fixes one admissible order, the stable insertion sort. In a real engine, which counting appointment comes last, and so the verdict, may differ when a client has an unreadable date-time.
- `toUpperCase`/`toLowerCase` cover ASCII and the basic Cyrillic alphabet with Ё. Other scripts are left unchanged. `\s` in the plate regex is the ECMAScript whitespace set.
- Ids from `Date.now()` and `Math.random()` (src/components/AppointmentDialog.tsx:42) are a parameter. The model does not assume they are unique; delete, toggle and replace act on every record with the id, as the source does.
- `EditClientDialog`'s `onSave` has no consumer in these files. Only the update it produces is modelled, not any effect on appointments.
- AppointmentDialog.Close models `handleClose` only. Escape, an overlay click and the dialog's own close control call `onOpenChange` directly (src/components/AppointmentDialog.tsx:68 and src/components/CalendarView.tsx:160), skipping `handleClose`: the typed texts and the time then persist into the next opening, and Save stays enabled. That path is not modelled.
- UI state is left out. This covers open/closed dialogs, popovers, the search box text, the expanded card and delete confirmations. The day and month names of `formatFullDate` (src/components/CalendarView.tsx:54) are also out; only its weekday index is modelled.
- The initial car catalogue (src/pages/Index.tsx:39-45) is data, not logic.
- `getClientReliability` reads the clock at each call. The model takes one `now` for a whole render.

## Findings

| source | as written | input that shows it | evidently intended | confidence | as-written member | corrected member |
|---|---|---|---|---|---|---|
| src/components/CalendarView.tsx:40-48 | the week strip starts at `date - getDay() + 1`, taking Sunday as day 0 | any Sunday: the strip shows the following Monday to Sunday, without the selected day | the Monday-to-Sunday week holding the day, as the Monday-first labels and the Sunday-last index at line 53 show | high, not executed | CalendarView.WeekOfSpec | CalendarView.MondayWeekSpec |
| src/components/CarsView.tsx:31-35 | the duplicate check lower-cases the untrimmed input, but the stored name is trimmed | catalogue with "BMW", input " BMW": a second "BMW" entry is added | compare the trimmed name that will be stored | medium, not executed | CarsView.AddBrandAsWrittenDuplicates | CarsView.AddBrandSpec |
| src/components/AppointmentDialog.tsx:27-63 | the time comes from `useState(selectedTime \|\| '09:00')`, but the dialog stays mounted, so the initial value applies once; the reset on close uses the slot of that opening | first open from the 14:00 slot shows 09:00; after closing with Cancel or Save, opening from 10:00 shows 14:00 | the form shows the time of the slot it was opened from | high, not executed | AppointmentDialog.OpenAsWrittenLags | AppointmentDialog.OpenShowsSlot |
