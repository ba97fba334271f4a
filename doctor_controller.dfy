/** The doctor panel's appointment handlers: prescription entries added to
    and edited in an appointment, cancellation, completion, the availability
    toggle and the dashboard. The stored documents are objects held by an
    in-memory `Clinic`; a handler's reply is a `Response`. */
module DoctorController {
  import opened Wrappers
  import opened JsText
  import opened JsNumber

  /** One prescription entry: its text, the paths of its uploaded files,
      whether it was edited, and the time of the last edit. */
  datatype Entry = Entry(text: string, images: seq<string>, isEdited: bool, updatedAt: Option<int>)

  /** The stored `prescription` field of an appointment: absent (any falsy
      value), present without an `entries` field (`{}` or another truthy
      value), or holding the entries. */
  datatype Prescription = Absent | WithoutEntries | Listed(entries: seq<Entry>)

  /** The JSON reply `{ success, message }`. */
  datatype Response = Response(success: bool, message: string)

  const NotFound := "Appointment not found"
  const Unauthorized := "Unauthorized doctor"
  const NoEntries := "No prescription entries found"
  const Added := "New prescription added"
  const Updated := "Prescription updated successfully"
  const Cancelled := "Appointment Cancelled"
  const Completed := "Appointment Completed"
  const AvailabilityChanged := "Availablity Changed"
  /** The message of the TypeError thrown when the doctor lookup finds nothing. */
  const NullDoctor := "Cannot read properties of null (reading 'available')"
  /** The message of the TypeError thrown when a stored prescription has no
      entries array to push onto. */
  const UndefinedPush := "Cannot read properties of undefined (reading 'push')"

  /** An entry is edited exactly when it carries an edit time. */
  predicate Consistent(e: Entry) {
    e.isEdited <==> e.updatedAt.Some?
  }

  predicate AllConsistent(entries: seq<Entry>) {
    forall k :: 0 <= k < |entries| ==> Consistent(entries[k])
  }

  /** The entry `addPrescription` appends; a new entry takes the schema
      defaults: not edited, no edit time. */
  function NewEntry(text: string, imagePaths: seq<string>): (e: Entry)
    ensures Consistent(e) && !e.isEdited
    ensures e.text == text && e.images == imagePaths
  {
    Entry(text, imagePaths, false, None)
  }

  /** Entry `e` after an edit with `text` and uploaded `imagePaths` at time
      `now`: a non-blank text replaces the old one trimmed, a blank one keeps
      it; the uploads are appended after the old images. */
  function EditedEntry(e: Entry, text: string, imagePaths: seq<string>, now: int): (r: Entry)
    ensures Consistent(r) && r.isEdited && r.updatedAt == Some(now)
    ensures !IsBlank(text) ==> r.text == Trim(text)
    ensures IsBlank(text) ==> r.text == e.text
    ensures |r.images| == |e.images| + |imagePaths|
    ensures r.images[..|e.images|] == e.images && r.images[|e.images|..] == imagePaths
  {
    TrimEmptyIffBlank(text);
    var t := if text != "" && Trim(text) != "" then Trim(text) else e.text;
    var images := if |imagePaths| > 0 then e.images + imagePaths else e.images;
    Entry(t, images, true, Some(now))
  }

  /** The position `parseInt(entryIndex)` selects among `count` entries,
      or `None` when it is NaN or out of range. */
  function EntryIndex(entryIndex: string, count: nat): (i: Option<nat>)
    ensures i.Some? <==> ParseInt(entryIndex).Some? && 0 <= ParseInt(entryIndex).value < count
    ensures i.Some? ==> i.value == ParseInt(entryIndex).value
  {
    match ParseInt(entryIndex)
    case Some(index) => if 0 <= index < count then Some(index) else None
    case None => None
  }

  /** The index a client sends as a decimal string selects that entry, and
      the entry count itself is out of range. */
  lemma EntryIndexOfDecimal(i: nat, count: nat)
    ensures EntryIndex(NatToString(i), count) == (if i < count then Some(i) else None)
  {
    ParseIntNatToString(i);
  }

  function InvalidIndex(entryIndex: string, count: nat): string {
    "Invalid entry index: " + entryIndex + ". Total entries: " + NatToString(count)
  }

  /** A stored appointment document. */
  class Appointment {
    const id: string
    const userId: string
    const docId: string
    const amount: int
    var payment: bool
    var cancelled: bool
    var isCompleted: bool
    var prescription: Prescription

    ghost predicate Valid()
      reads this
    {
      prescription.Listed? ==> AllConsistent(prescription.entries)
    }

    /** A booked appointment: not paid, cancelled or completed, and without
        a prescription. */
    constructor(id: string, userId: string, docId: string, amount: int)
      ensures Valid()
      ensures this.id == id && this.userId == userId && this.docId == docId && this.amount == amount
      ensures !payment && !cancelled && !isCompleted && prescription == Absent
    {
      this.id := id;
      this.userId := userId;
      this.docId := docId;
      this.amount := amount;
      payment := false;
      cancelled := false;
      isCompleted := false;
      prescription := Absent;
    }

    /** The entries, empty when there is no entries array. */
    function Entries(): (entries: seq<Entry>)
      reads this
      ensures prescription.Listed? ==> entries == prescription.entries
      ensures !prescription.Listed? ==> entries == []
    {
      if prescription.Listed? then prescription.entries else []
    }

    /** Creates the prescription when it is absent, then pushes `e` onto its
        entries; a prescription present without an entries array makes the
        push fail (`pushed` is false) and nothing changes. */
    method PushEntry(e: Entry) returns (pushed: bool)
      requires Valid() && Consistent(e)
      modifies this
      ensures Valid()
      ensures pushed <==> !old(prescription).WithoutEntries?
      ensures pushed ==> prescription == Listed(old(Entries()) + [e])
      ensures !pushed ==> unchanged(this)
      ensures payment == old(payment) && cancelled == old(cancelled) && isCompleted == old(isCompleted)
    {
      if prescription.Absent? {
        prescription := Listed([]);
      }
      if prescription.WithoutEntries? {
        return false;
      }
      prescription := Listed(prescription.entries + [e]);
      pushed := true;
    }

    /** Edits entry `i` in place, step by step as the handler does. */
    method ReviseEntry(i: nat, text: string, imagePaths: seq<string>, now: int)
      requires Valid() && prescription.Listed? && i < |prescription.entries|
      modifies this
      ensures Valid()
      ensures prescription == Listed(old(prescription.entries)[i := EditedEntry(old(prescription.entries)[i], text, imagePaths, now)])
      ensures payment == old(payment) && cancelled == old(cancelled) && isCompleted == old(isCompleted)
    {
      var entries := prescription.entries;
      var e := entries[i];
      if text != "" && Trim(text) != "" {
        e := e.(text := Trim(text));
      }
      if |imagePaths| > 0 {
        e := e.(images := e.images + imagePaths);
      }
      e := e.(isEdited := true);
      e := e.(updatedAt := Some(now));
      prescription := Listed(entries[i := e]);
    }
  }

  /** A stored doctor document; only its availability flag is modelled. */
  class Doctor {
    const id: string
    var available: bool

    constructor(id: string, available: bool)
      ensures this.id == id && this.available == available
    {
      this.id := id;
      this.available := available;
    }
  }

  /** The first position of `id` in `ids`, or -1: what `findById` looks up. */
  function IndexOfId(ids: seq<string>, id: string): (i: int)
    ensures -1 <= i < |ids|
    ensures i >= 0 ==> ids[i] == id && forall j :: 0 <= j < i ==> ids[j] != id
    ensures i < 0 ==> forall j :: 0 <= j < |ids| ==> ids[j] != id
  {
    if ids == [] then -1
    else if ids[0] == id then 0
    else
      var i := IndexOfId(ids[1..], id);
      if i < 0 then -1 else i + 1
  }

  /** The ids of the documents `s`, in stored order. */
  function Ids<T>(s: seq<T>, idOf: T -> string): (ids: seq<string>)
    ensures |ids| == |s| && forall k :: 0 <= k < |s| ==> ids[k] == idOf(s[k])
  {
    seq(|s|, k requires 0 <= k < |s| => idOf(s[k]))
  }

  function AppointmentIds(s: seq<Appointment>): seq<string>
  {
    Ids(s, (a: Appointment) => a.id)
  }

  function DoctorIds(s: seq<Doctor>): seq<string>
  {
    Ids(s, (d: Doctor) => d.id)
  }

  /** The appointments of doctor `docId`, in stored order. */
  function ForDoctor(s: seq<Appointment>, docId: string): (r: seq<Appointment>)
    ensures |r| <= |s|
    ensures forall k :: 0 <= k < |r| ==> r[k] in s && r[k].docId == docId
    ensures forall k :: 0 <= k < |s| && s[k].docId == docId ==> s[k] in r
  {
    if s == [] then []
    else
      var rest := ForDoctor(s[..|s| - 1], docId);
      var last := s[|s| - 1];
      assert forall k :: 0 <= k < |s| - 1 ==> s[k] == s[..|s| - 1][k];
      if last.docId == docId then rest + [last] else rest
  }

  /** The query keeps the stored order and takes each matching appointment
      once: it distributes over concatenation ... */
  lemma {:induction false} ForDoctorAppend(a: seq<Appointment>, b: seq<Appointment>, docId: string)
    ensures ForDoctor(a + b, docId) == ForDoctor(a, docId) + ForDoctor(b, docId)
    decreases |b|
  {
    if b == [] {
      assert a + b == a;
    } else {
      var init := b[..|b| - 1];
      assert (a + b)[..|a + b| - 1] == a + init;
      assert (a + b)[|a + b| - 1] == b[|b| - 1];
      ForDoctorAppend(a, init, docId);
    }
  }

  /** ... and takes a single appointment exactly when it is the doctor's. */
  lemma ForDoctorOne(x: Appointment, docId: string)
    ensures ForDoctor([x], docId) == (if x.docId == docId then [x] else [])
  {
    assert [x][..0] == [];
  }

  /** An appointment earns its amount once completed or paid. */
  predicate Billable(a: Appointment)
    reads a
  {
    a.isCompleted || a.payment
  }

  /** Sum of the amounts of the billable appointments of `s`. */
  function Earnings(s: seq<Appointment>): int
    reads s
  {
    if s == [] then 0
    else Earnings(s[..|s| - 1]) + (if Billable(s[|s| - 1]) then s[|s| - 1].amount else 0)
  }

  /** Earnings add up over a split of the list. */
  lemma {:induction false} EarningsAppend(a: seq<Appointment>, b: seq<Appointment>)
    ensures Earnings(a + b) == Earnings(a) + Earnings(b)
    decreases |b|
  {
    if b != [] {
      var b' := b[..|b| - 1];
      assert (a + b)[..|a + b| - 1] == a + b';
      EarningsAppend(a, b');
    } else {
      assert a + b == a;
    }
  }

  /** With no completed and no paid appointment there are no earnings. */
  lemma {:induction false} EarningsNoneBillable(s: seq<Appointment>)
    requires forall k :: 0 <= k < |s| ==> !Billable(s[k])
    ensures Earnings(s) == 0
  {
    if s != [] {
      EarningsNoneBillable(s[..|s| - 1]);
    }
  }

  /** One more appointment adds its amount when billable. */
  lemma EarningsStep(s: seq<Appointment>, k: nat)
    requires k < |s|
    ensures Earnings(s[..k + 1]) == Earnings(s[..k]) + (if Billable(s[k]) then s[k].amount else 0)
  {
    assert s[..k + 1][..k] == s[..k];
  }

  /** The distinct patients of `s`. */
  function UserIds(s: seq<Appointment>): set<string> {
    set a | a in s :: a.userId
  }

  predicate NoDuplicates<T(==)>(s: seq<T>) {
    forall i, j :: 0 <= i < j < |s| ==> s[i] != s[j]
  }

  /** One more appointment adds its patient. */
  lemma UserIdsStep(s: seq<Appointment>, k: nat)
    requires k < |s|
    ensures UserIds(s[..k + 1]) == UserIds(s[..k]) + {s[k].userId}
  {
    assert s[..k + 1] == s[..k] + [s[k]];
  }

  /** Pushing an absent element keeps a list free of duplicates and adds
      the element to its set. */
  lemma PushDistinct<T>(s: seq<T>, x: T)
    requires NoDuplicates(s) && x !in s
    ensures NoDuplicates(s + [x])
    ensures (set y | y in s + [x]) == (set y | y in s) + {x}
  {
  }

  /** The first loop of `doctorDashboard`: adds the amount of every
      completed or paid appointment. */
  method SumEarnings(mine: seq<Appointment>) returns (earnings: int)
    ensures earnings == Earnings(mine)
  {
    earnings := 0;
    var k := 0;
    while k < |mine|
      invariant 0 <= k <= |mine|
      invariant earnings == Earnings(mine[..k])
    {
      EarningsStep(mine, k);
      if mine[k].isCompleted || mine[k].payment {
        earnings := earnings + mine[k].amount;
      }
      k := k + 1;
    }
    assert mine[..|mine|] == mine;
  }

  /** The second loop of `doctorDashboard`: pushes each user id that is not
      yet in the list, so the list holds every patient once. */
  method DistinctPatients(mine: seq<Appointment>) returns (patients: seq<string>)
    ensures NoDuplicates(patients)
    ensures (set x | x in patients) == UserIds(mine)
  {
    patients := [];
    var k := 0;
    while k < |mine|
      invariant 0 <= k <= |mine|
      invariant NoDuplicates(patients)
      invariant (set x | x in patients) == UserIds(mine[..k])
    {
      UserIdsStep(mine, k);
      if mine[k].userId !in patients {
        PushDistinct(patients, mine[k].userId);
        patients := patients + [mine[k].userId];
      }
      k := k + 1;
    }
    assert mine[..|mine|] == mine;
  }

  /** A list without duplicates has as many elements as its set. */
  lemma {:induction false} DistinctCard<T>(s: seq<T>)
    requires NoDuplicates(s)
    ensures |set x | x in s| == |s|
  {
    if s != [] {
      var init := s[..|s| - 1];
      DistinctCard(init);
      assert (set x | x in s) == (set x | x in init) + {s[|s| - 1]};
      assert s[|s| - 1] !in (set x | x in init);
    }
  }

  /** There are never more patients than appointments. */
  lemma {:induction false} PatientsAtMostAppointments(s: seq<Appointment>)
    ensures |UserIds(s)| <= |s|
  {
    if s != [] {
      var init := s[..|s| - 1];
      PatientsAtMostAppointments(init);
      assert UserIds(s) == UserIds(init) + {s[|s| - 1].userId};
    }
  }

  /** `s.reverse()`. */
  function Reversed<T>(s: seq<T>): (r: seq<T>)
    ensures |r| == |s|
    ensures forall k :: 0 <= k < |s| ==> r[k] == s[|s| - 1 - k]
  {
    if s == [] then [] else [s[|s| - 1]] + Reversed(s[..|s| - 1])
  }

  /** The dashboard figures of one doctor. */
  datatype DashData = DashData(earnings: int, appointments: nat, patients: nat, latestAppointments: seq<Appointment>)

  /** The store of appointment and doctor documents. */
  class Clinic {
    var appointments: seq<Appointment>
    var doctors: seq<Doctor>

    /** Document ids are unique, and every entry is consistent. */
    ghost predicate Valid()
      reads this, appointments
    {
      && (forall i, j :: 0 <= i < j < |appointments| ==> appointments[i].id != appointments[j].id)
      && (forall i, j :: 0 <= i < j < |doctors| ==> doctors[i].id != doctors[j].id)
      && (forall k :: 0 <= k < |appointments| ==> appointments[k].Valid())
    }

    /** An empty store. */
    constructor()
      ensures Valid() && appointments == [] && doctors == []
    {
      appointments := [];
      doctors := [];
    }

    /** `findById`: the appointment with id `id`, or null. */
    method FindAppointment(id: string) returns (a: Appointment?)
      ensures a == null <==> forall k :: 0 <= k < |appointments| ==> appointments[k].id != id
      ensures a != null ==> a == appointments[IndexOfId(AppointmentIds(appointments), id)] && a.id == id
    {
      var k := 0;
      while k < |appointments|
        invariant 0 <= k <= |appointments|
        invariant forall j :: 0 <= j < k ==> appointments[j].id != id
      {
        if appointments[k].id == id {
          return appointments[k];
        }
        k := k + 1;
      }
      return null;
    }

    /** `findById` on the doctors: the doctor with id `id`, or null. */
    method FindDoctor(id: string) returns (d: Doctor?)
      ensures d == null <==> forall k :: 0 <= k < |doctors| ==> doctors[k].id != id
      ensures d != null ==> d == doctors[IndexOfId(DoctorIds(doctors), id)] && d.id == id
    {
      var k := 0;
      while k < |doctors|
        invariant 0 <= k <= |doctors|
        invariant forall j :: 0 <= j < k ==> doctors[j].id != id
      {
        if doctors[k].id == id {
          return doctors[k];
        }
        k := k + 1;
      }
      return null;
    }

    /** `addPrescription`: the owning doctor appends a new entry. */
    method AddPrescription(appointmentId: string, docId: string, text: string, imagePaths: seq<string>)
      returns (r: Response)
      requires Valid()
      modifies appointments
      ensures Valid()
      ensures var i := IndexOfId(AppointmentIds(appointments), appointmentId);
        && (i < 0 ==> r == Response(false, NotFound) && unchanged(appointments))
        && (i >= 0 && appointments[i].docId != docId ==> r == Response(false, Unauthorized) && unchanged(appointments))
        && (i >= 0 && appointments[i].docId == docId && old(appointments[i].prescription).WithoutEntries? ==>
              r == Response(false, UndefinedPush) && unchanged(appointments))
        && (i >= 0 && appointments[i].docId == docId && !old(appointments[i].prescription).WithoutEntries? ==>
              && r == Response(true, Added)
              && appointments[i].prescription == Listed(old(appointments[i].Entries()) + [NewEntry(text, imagePaths)])
              && appointments[i].payment == old(appointments[i].payment)
              && appointments[i].cancelled == old(appointments[i].cancelled)
              && appointments[i].isCompleted == old(appointments[i].isCompleted)
              && forall j :: 0 <= j < |appointments| && j != i ==> unchanged(appointments[j]))
    {
      var appointment := FindAppointment(appointmentId);
      if appointment == null {
        return Response(false, NotFound);
      }
      if appointment.docId != docId {
        return Response(false, Unauthorized);
      }
      var pushed := appointment.PushEntry(NewEntry(text, imagePaths));
      if !pushed {
        return Response(false, UndefinedPush);
      }
      r := Response(true, Added);
    }

    /** `editPrescription`: the owning doctor edits the entry at the
        position `parseInt(entryIndex)` at time `now`. */
    method EditPrescription(appointmentId: string, docId: string, entryIndex: string, text: string,
                            imagePaths: seq<string>, now: int)
      returns (r: Response)
      requires Valid()
      modifies appointments
      ensures Valid()
      ensures var i := IndexOfId(AppointmentIds(appointments), appointmentId);
        && (i < 0 ==> r == Response(false, NotFound) && unchanged(appointments))
        && (i >= 0 && appointments[i].docId != docId ==> r == Response(false, Unauthorized) && unchanged(appointments))
        && (i >= 0 && appointments[i].docId == docId ==>
              var entries := old(appointments[i].prescription);
              && (!entries.Listed? ==> r == Response(false, NoEntries) && unchanged(appointments))
              && (entries.Listed? && EntryIndex(entryIndex, |entries.entries|).None? ==>
                    r == Response(false, InvalidIndex(entryIndex, |entries.entries|)) && unchanged(appointments))
              && (entries.Listed? && EntryIndex(entryIndex, |entries.entries|).Some? ==>
                    var k := EntryIndex(entryIndex, |entries.entries|).value;
                    && r == Response(true, Updated)
                    && appointments[i].prescription
                       == Listed(entries.entries[k := EditedEntry(entries.entries[k], text, imagePaths, now)])
                    && appointments[i].payment == old(appointments[i].payment)
                    && appointments[i].cancelled == old(appointments[i].cancelled)
                    && appointments[i].isCompleted == old(appointments[i].isCompleted)
                    && forall j :: 0 <= j < |appointments| && j != i ==> unchanged(appointments[j])))
    {
      var appointment := FindAppointment(appointmentId);
      if appointment == null {
        return Response(false, NotFound);
      }
      if appointment.docId != docId {
        return Response(false, Unauthorized);
      }
      if !appointment.prescription.Listed? {
        return Response(false, NoEntries);
      }
      var count := |appointment.prescription.entries|;
      var index := EntryIndex(entryIndex, count);
      if index.None? {
        return Response(false, InvalidIndex(entryIndex, count));
      }
      appointment.ReviseEntry(index.value, text, imagePaths, now);
      r := Response(true, Updated);
    }

    /** `appointmentCancel`: only the owning doctor cancels; both replies
        carry the message 'Appointment Cancelled'. */
    method AppointmentCancel(docId: string, appointmentId: string) returns (r: Response)
      requires Valid()
      modifies appointments
      ensures Valid()
      ensures var i := IndexOfId(AppointmentIds(appointments), appointmentId);
        && r.message == Cancelled
        && (r.success <==> i >= 0 && appointments[i].docId == docId)
        && (!r.success ==> unchanged(appointments))
        && (r.success ==>
              && appointments[i].cancelled
              && appointments[i].payment == old(appointments[i].payment)
              && appointments[i].isCompleted == old(appointments[i].isCompleted)
              && appointments[i].prescription == old(appointments[i].prescription)
              && forall j :: 0 <= j < |appointments| && j != i ==> unchanged(appointments[j]))
    {
      var appointment := FindAppointment(appointmentId);
      if appointment != null && appointment.docId == docId {
        appointment.cancelled := true;
        return Response(true, Cancelled);
      }
      r := Response(false, Cancelled);
    }

    /** `appointmentComplete`: only the owning doctor completes, with or
        without a prescription; a refused completion replies with the
        message 'Appointment Cancelled'. */
    method AppointmentComplete(docId: string, appointmentId: string) returns (r: Response)
      requires Valid()
      modifies appointments
      ensures Valid()
      ensures var i := IndexOfId(AppointmentIds(appointments), appointmentId);
        && (r.success <==> i >= 0 && appointments[i].docId == docId)
        && (!r.success ==> r.message == Cancelled && unchanged(appointments))
        && (r.success ==>
              && r.message == Completed
              && appointments[i].isCompleted
              && appointments[i].payment == old(appointments[i].payment)
              && appointments[i].cancelled == old(appointments[i].cancelled)
              && appointments[i].prescription == old(appointments[i].prescription)
              && forall j :: 0 <= j < |appointments| && j != i ==> unchanged(appointments[j]))
    {
      var appointment := FindAppointment(appointmentId);
      if appointment != null && appointment.docId == docId {
        appointment.isCompleted := true;
        return Response(true, Completed);
      }
      r := Response(false, Cancelled);
    }

    /** `changeAvailablity`: flips the doctor's flag; a missing doctor
        makes the handler read a property of null, and the caught error's
        message is the reply. */
    method ChangeAvailability(docId: string) returns (r: Response)
      requires Valid()
      modifies doctors
      ensures Valid()
      ensures var i := IndexOfId(DoctorIds(doctors), docId);
        && (i < 0 ==> r == Response(false, NullDoctor) && unchanged(doctors))
        && (i >= 0 ==>
              && r == Response(true, AvailabilityChanged)
              && doctors[i].available == !old(doctors[i].available)
              && forall j :: 0 <= j < |doctors| && j != i ==> unchanged(doctors[j]))
    {
      var doctor := FindDoctor(docId);
      if doctor == null {
        return Response(false, NullDoctor);
      }
      doctor.available := !doctor.available;
      r := Response(true, AvailabilityChanged);
    }

    /** `doctorDashboard`: earnings over the completed or paid appointments
        of the doctor, the number of those appointments, the number of
        distinct patients, and the appointments newest first. */
    method DoctorDashboard(docId: string) returns (dash: DashData)
      ensures var mine := ForDoctor(appointments, docId);
        && dash.earnings == Earnings(mine)
        && dash.appointments == |mine|
        && dash.patients == |UserIds(mine)|
        && dash.latestAppointments == Reversed(mine)
    {
      var mine := ForDoctor(appointments, docId);
      var earnings := SumEarnings(mine);
      var patients := DistinctPatients(mine);
      DistinctCard(patients);
      dash := DashData(earnings, |mine|, |patients|, Reversed(mine));
    }
  }
}
