# Prescription store and download helpers of the clinic app

This project models two pieces of a clinic booking application in Dafny
and proves properties of them.

The first piece is the doctor panel's appointment handlers
(`backend/controllers/doctorController.js`). Every appointment document
embeds an ordered list of prescription entries. Each entry has a text, the
paths of its uploaded files, an edited flag and an edit time. The modelled
handlers:

- `addPrescription` appends an entry;
- `editPrescription` edits an entry selected by its position;
- `appointmentCancel` and `appointmentComplete` set a flag;
- `changeAvailablity` flips a doctor's availability;
- `doctorDashboard` adds up earnings and counts distinct patients.

The stored documents are Dafny objects (`Appointment`, `Doctor`) held by an
in-memory `Clinic`. The handlers are methods that change those objects in
place. Their postconditions give every reply and every new state, including
"nothing else changes". `Clinic.Valid` is the store invariant: document ids
are unique, and every entry is edited exactly when it carries an edit time.
The constructors establish it: a new store is empty, and a new appointment
has no prescription.

The second piece is the download helpers of the patient's appointment page
(`frontend/src/pages/MyAppointments.jsx`):

- `slotDateFormat` turns a date key "DD_MM_YYYY" into "DD Mon YYYY";
- `safe` escapes text for the generated HTML;
- `filenameDate`, `safeDoc` and the file name are derived for the PDF;
- the page loop slices the rendered image into A4 pages;
- `formatSummary` turns the AI explanation into a bullet list.

The string functions are pure Dafny functions over models of the
JavaScript built-ins they call, exact for the inputs the page handles
(the limits are listed under "## Left out"). These live in the `JsText` module (`trim`,
`split`, `join`, `replace`, `padStart`) and the `JsNumber` module
(`Number`, `parseInt`, `String`, truthiness). The download handler and its
page loop are methods.

Files:

- `wrappers.dfy`: the `Option` type.
- `js_text.dfy`, `js_number.dfy`: the JavaScript string and number built-ins.
- `date_format.dfy`: `slotDateFormat`, `filenameDate`, `safeDoc` and the file name.
- `html_escape.dfy`: `safe`, and the corrected escaping beside it.
- `summary.dfy`: `formatSummary`.
- `download.dfy`: the page loop and the download handler.
- `doctor_controller.dfy`: the appointment handlers and the store.

The code leaves these rules unenforced, and the model follows the code:

- an entry may be added with empty text and no files;
- an appointment may be completed without any prescription;
- a refused completion replies with the message 'Appointment Cancelled'.

A stored prescription is absent, present without an entries array, or
holds its entries. `addPrescription` creates a missing prescription, but
on one without an entries array its push throws, and the reply carries the
TypeError's message. `editPrescription` refuses both of the first two states
with "No prescription entries found".

The page calls the download with a date that `slotDateFormat` has already
formatted (MyAppointments.jsx:327). A stored key without spaces
formats to a date without underscores
(`DateFormat.FormattedKeyHasNoUnderscore`), so the raw-key branch of
`filenameDate`, which `FilenameDateIso` and `FilenameDateDefaults`
describe, is not reached from the page itself.

## Model

| member | source | states |
|---|---|---|
| DoctorController.NewEntry | backend/controllers/doctorController.js:164-167 | the appended entry holds the given text and uploaded paths, is not edited and has no edit time |
| DoctorController.EditedEntry | backend/controllers/doctorController.js:210-214 | an edit replaces the text with the trimmed new text only when that text is non-blank, otherwise keeps the old text; the old images are a prefix and the uploads follow them; the entry is marked edited at `now` |
| DoctorController.EntryIndex | backend/controllers/doctorController.js:203-204 | a position is selected exactly when `parseInt` yields a number in 0..count-1, and it is that number |
| DoctorController.EntryIndexOfDecimal | backend/controllers/doctorController.js:203-204 | the decimal string of i selects entry i when i < count and nothing otherwise |
| DoctorController.IndexOfId | backend/controllers/doctorController.js:157 | the lookup finds the first document with the id, or reports that none has it |
| DoctorController.Appointment.PushEntry | backend/controllers/doctorController.js:169-170 | an absent prescription is created and the entry list grows by exactly the new entry; a prescription without an entries array makes the push fail and nothing changes; the flags are unchanged |
| DoctorController.Appointment.ReviseEntry | backend/controllers/doctorController.js:210-214 | only entry i changes, and it becomes `EditedEntry` of its old value; the count and the flags are unchanged |
| DoctorController.Clinic.FindAppointment | backend/controllers/doctorController.js:157-158 | returns null exactly when no stored appointment has the id, otherwise the first with it |
| DoctorController.Clinic.FindDoctor | backend/controllers/doctorController.js:110 | returns null exactly when no stored doctor has the id, otherwise the first with it |
| DoctorController.Clinic.AddPrescription | backend/controllers/doctorController.js:151-183 | an unknown id fails with "Appointment not found", another doctor with "Unauthorized doctor", and a prescription without an entries array with "Cannot read properties of undefined (reading 'push')", each changing nothing; otherwise exactly one entry is appended to that appointment and no other appointment changes |
| DoctorController.Clinic.EditPrescription | backend/controllers/doctorController.js:187-227 | not found, unauthorized, "No prescription entries found" (no prescription, or one without an entries array) and "Invalid entry index: <raw>. Total entries: <count>" each fail and change nothing; otherwise only the selected entry of that appointment changes, as `EditedEntry` says |
| DoctorController.Clinic.AppointmentCancel | backend/controllers/doctorController.js:50-68 | succeeds exactly when the appointment exists and belongs to the doctor, then sets only `cancelled`; both replies say 'Appointment Cancelled'; a refusal changes nothing |
| DoctorController.Clinic.AppointmentComplete | backend/controllers/doctorController.js:71-88 | succeeds exactly when the appointment exists and belongs to the doctor, with or without a prescription, then sets only `isCompleted`; a refusal says 'Appointment Cancelled' and changes nothing |
| DoctorController.Clinic.ChangeAvailability | backend/controllers/doctorController.js:105-118 | flips the availability of the doctor with the id and of no one else; for an unknown id the reply is the null-property error message and nothing changes |
| DoctorController.Clinic.DoctorDashboard | backend/controllers/doctorController.js:233-271 | earnings are the sum of the amounts of the doctor's completed or paid appointments, `appointments` is their number, `patients` the number of distinct user ids, `latestAppointments` the list reversed |
| DoctorController.SumEarnings | backend/controllers/doctorController.js:240-246 | the earnings loop adds exactly the amounts of the completed or paid appointments, as `Earnings` defines |
| DoctorController.DistinctPatients | backend/controllers/doctorController.js:248-254 | the patients loop builds a list without duplicates whose elements are exactly the user ids of the appointments |
| DoctorController.ForDoctor | backend/controllers/doctorController.js:238 | the query result holds exactly the appointments of the doctor, no more than are stored |
| DoctorController.ForDoctorAppend | backend/controllers/doctorController.js:238 | the query distributes over concatenation, so it keeps the stored order |
| DoctorController.ForDoctorOne | backend/controllers/doctorController.js:238 | a single appointment is taken once exactly when it is the doctor's, so with the previous row each match appears exactly once |
| DoctorController.EarningsAppend | backend/controllers/doctorController.js:240-246 | earnings add up over a split of the appointment list |
| DoctorController.EarningsNoneBillable | backend/controllers/doctorController.js:242-246 | with no completed and no paid appointment the earnings are 0 |
| DoctorController.DistinctCard | backend/controllers/doctorController.js:248-254 | a list kept free of duplicates has as many elements as distinct values |
| DoctorController.PatientsAtMostAppointments | backend/controllers/doctorController.js:248-261 | there are never more distinct patients than appointments |
| DoctorController.Reversed | backend/controllers/doctorController.js:262 | the reversed list has the same length, and position k holds the element at position n-1-k |
| JsNumber.ParseIntNatToString | backend/controllers/doctorController.js:203 | `parseInt` of the decimal string of n is n |
| JsNumber.ParseIntOfDigits | backend/controllers/doctorController.js:203 | `parseInt` of a string of decimal digits is their value |
| JsText.TrimEmptyIffBlank | backend/controllers/doctorController.js:210 | `text.trim() !== ""` holds exactly when the text has a character that is not white space |
| DateFormat.SlotDateFormat | frontend/src/pages/MyAppointments.jsx:48-65 | the formatted date always holds a space |
| DateFormat.SlotDateFormatIdempotent | frontend/src/pages/MyAppointments.jsx:50-64 | a string with a space passes unchanged, so formatting twice equals formatting once |
| DateFormat.MonthIndex | frontend/src/pages/MyAppointments.jsx:58-63 | the month table is read exactly for a whole number from 1 to 12, at that number minus one |
| DateFormat.SlotDateFormatRaw | frontend/src/pages/MyAppointments.jsx:53-64 | a key of underscore-joined parts becomes day, month name and year separated by spaces; a missing year is empty |
| DateFormat.SlotDateFormatNumericMonth | frontend/src/pages/MyAppointments.jsx:53-64 | "D_M_Y" with a decimal month M in 1..12 becomes "D " + months[M-1] + " Y" |
| DateFormat.SlotDateFormatExample | frontend/src/pages/MyAppointments.jsx:53-64 | "05_03_2026" becomes "05 Mar 2026" |
| DateFormat.MonthNameFallbacks | frontend/src/pages/MyAppointments.jsx:55-63 | a missing, zero or non-numeric month gives "Jan"; any other number outside 1..12 keeps the raw month text |
| DateFormat.SlotDateFormatMissingParts | frontend/src/pages/MyAppointments.jsx:53-64 | a key without a year gets an empty year, and a key without an underscore is a day with month "Jan" |
| DateFormat.RawKeyOfParts | frontend/src/pages/MyAppointments.jsx:134-135 | a key holding an underscore takes the raw-key branch with its underscore-separated parts |
| DateFormat.FilenameDateIso | frontend/src/pages/MyAppointments.jsx:134-140 | a key "D_M_Y" with a year and a positive decimal month gives "Y-MM-DD": the month as a number and the day, each left-padded to two characters |
| DateFormat.FilenameDateDefaults | frontend/src/pages/MyAppointments.jsx:134-140 | a key "D_M" whose month is not a non-zero number gives "DD-01-": the month falls back to "01" and the missing year is empty |
| DateFormat.FormattedKeyHasNoUnderscore | frontend/src/pages/MyAppointments.jsx:48-65 | a stored key without spaces formats to a date without underscores, whose file-name date without a parsed date is the display date with spaces replaced |
| DateFormat.FilenameDateNonEmpty | frontend/src/pages/MyAppointments.jsx:131-153 | the file-name date is never empty for a non-empty display date |
| DateFormat.KeepFileNameChars | frontend/src/pages/MyAppointments.jsx:156 | after `/[^\w-]/g` is removed only letters, digits, '_' and '-' remain |
| DateFormat.SafeDoc | frontend/src/pages/MyAppointments.jsx:156 | the doctor part of the file name holds only letters, digits, '_' and '-' |
| DateFormat.SafeDocIdempotent | frontend/src/pages/MyAppointments.jsx:156 | an empty name gives "Doctor", a non-empty name that is already safe is kept, and cleaning a non-empty result again changes nothing |
| DateFormat.FilenameShape | frontend/src/pages/MyAppointments.jsx:222 | the file name is "Prescription_" + safeDoc + "_" + filenameDate + ".pdf" with a safe doctor part; the "date" fallback never applies, because the file-name date is never empty |
| JsNumber.ToNumberNatToString | frontend/src/pages/MyAppointments.jsx:55 | `Number` of a decimal string of n is the whole number n |
| HtmlEscape.ThreePassesAreEscapeEach | frontend/src/pages/MyAppointments.jsx:125-128 | the three global replacements rewrite each character on its own |
| HtmlEscape.SafeOutput | frontend/src/pages/MyAppointments.jsx:124-128 | an empty text gives "-", and the output holds '<' or '>' only inside the "<br>" written for a line break |
| HtmlEscape.SafeKeepsPlain | frontend/src/pages/MyAppointments.jsx:124-128 | a non-empty text without '<', '>' or line feeds passes `safe` unchanged |
| HtmlEscape.SafeConflatesEntity | frontend/src/pages/MyAppointments.jsx:124-128 | as written, "<" and "&lt;" produce the same markup |
| HtmlEscape.SafeEscapedRoundTrip | frontend/src/pages/MyAppointments.jsx:124-128 | with '&' escaped first, reading the markup back gives the text (or "-") |
| Summary.FormatSummary | frontend/src/pages/MyAppointments.jsx:248-260 | an empty text gives "No summary available."; any other text gives a list whose every item is non-empty, trimmed and free of the deleted marks and the separators |
| Summary.Cleaned | frontend/src/pages/MyAppointments.jsx:250 | the cleaned text holds none of '*', '_', '#', '>', '-' |
| Summary.Points | frontend/src/pages/MyAppointments.jsx:250-255 | every item is non-empty, trimmed, and holds none of '*', '_', '#', '>', '-', '•' or a line feed |
| Summary.PointsRoundTrip | frontend/src/pages/MyAppointments.jsx:250-255 | the items written one per line format to the same items |
| Summary.HyphenDeleted | frontend/src/pages/MyAppointments.jsx:250-253 | a '-' never separates items, because it is deleted before the split |
| PrescriptionDownload.PageOffsets | frontend/src/pages/MyAppointments.jsx:206-219 | the first page is drawn at offset 0, page k at -k·pageHeight, and there are max(1, ⌈imgHeight/pageHeight⌉) pages |
| PrescriptionDownload.PageCountUnique | frontend/src/pages/MyAppointments.jsx:214-219 | the loop's stopping bracket determines the page count, which is the ceiling formula |
| PrescriptionDownload.PagesTile | frontend/src/pages/MyAppointments.jsx:206-219 | every image row lies on exactly one page, and every page after the first starts inside the image |
| PrescriptionDownload.DownloadPrescription | frontend/src/pages/MyAppointments.jsx:131-222 | the handler's file name is `Filename` of its inputs, and its pages are those of `PageOffsets` |

## Left out

- Mongoose queries, `save()` and `findByIdAndUpdate` are in-place updates of in-memory objects. Persistence, atomicity and concurrent edits are not modelled.
- A malformed id makes `findById` throw a cast error; ids are plain strings here, so that error is not modelled.
- `docId` is a string parameter of each handler. Where the request gets it is not modelled: the doctor authentication middleware (authDoctor.js) is not part of this model, nor is the TypeError of `docId.toString()` on a missing id.
- DoctorController.Clinic.AddPrescription: the owner check compares the appointment's doctor with the `docId` the request carries. On this route the upload middleware runs after authentication (backend/routes/doctorRoute.js:15) and fills the body from the form fields, so that `docId` is whatever the form sends. The model does not claim that the check authenticates the caller.
- The add and edit replies also carry the whole appointment document; `Response` keeps only `success` and `message`.
- An absent `text` is the empty string, which JavaScript treats alike in every use here. Non-string request values are not modelled.
- `entryIndex` is its string form. A missing index is the string "undefined", which `parseInt` rejects.
- Uploads are the list of stored file paths. The upload middleware is not modelled, and the edit route has none.
- `new Date()` is the `now` parameter. The model does not require a clock that never goes back, so nothing relates successive edit times.
- The appointment schema (appointmentModel.js) is not part of this model. A new entry is taken to default to not edited with no edit time.
- `appointmentModel.find({ docId })` returns documents in stored order.
- `loginDoctor`, `appointmentsDoctor`, `doctorList`, `doctorProfile`, `updateDoctorProfile` and `deleteDoctor` are outside the modelled core.
- `ChangeAvailability` flips the flag of the doctor it found. The source reads the flag and then writes it in a second query, and the race between the two is not modelled.
- DoctorController.Clinic.AddPrescription: a stored `entries` field that holds `null` or another non-array value is not modelled. There the push throws with a different message.
- DoctorController.Clinic.DoctorDashboard: fees are integers. The source adds JavaScript numbers, where fractional fees round and a missing `amount` makes the earnings NaN.
- Strings hold characters, while JavaScript lengths count UTF-16 code units. `padStart` therefore differs on characters outside the Basic Multilingual Plane, which count as two units in JavaScript.
- `Number()` on exponent forms such as "1e1" gives NaN in the model, and values are exact rationals without IEEE rounding.
- JsNumber.NumberToString: `String()` of a number is written in plain decimal. JavaScript switches to exponent notation below 1e-6 and from 1e21 on. So a raw key whose month is "0.0000001" gives the file-name date "2026-0.0000001-05" in the model and "2026-1e-7-05" in JavaScript.
- `new Date(displayDate)` depends on the engine's date parser. Its outcome is the `parsed` parameter, given as year, month and day or `None` for an invalid date.
- PrescriptionDownload.PageOffsets: heights are whole numbers, while the source uses floating-point heights (A4 at 841.89 points) and the canvas ratio.
- html2canvas, jsPDF, the logo fetch, the HTML template around `safe`, React state, toasts and the axios calls are browser I/O or foreign libraries.
- `/\s/` in `safeDoc` and the file-name fallback is JavaScript's white space set; `\w` is ASCII letters, digits and '_'.

## Findings

| source | as written | input that shows it | evidently intended | confidence | as-written member | corrected member |
|---|---|---|---|---|---|---|
| frontend/src/pages/MyAppointments.jsx:124-128 | `safe` rewrites '<', '>' and line feeds but leaves '&' alone | the texts "<" and "&lt;" both become "&lt;" and render as "<" | '&' rewritten as "&amp;" first, so that the markup reads back to exactly the text | medium, not executed | HtmlEscape.SafeConflatesEntity | HtmlEscape.SafeEscapedRoundTrip |
