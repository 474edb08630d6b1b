/** The Reservation intake of src/reservations/reservations.service.ts: one
    reservation document, then one event credential for the booking user. A
    failed write ends the call with that failure; nothing is rolled back. */
module ReservationIntake {
  import opened Store
  import opened Ledger

  /** The `execution` part of the request: the session being booked. */
  datatype Execution = Execution(
    id: string,
    programId: string,
    startTime: string,
    endTime: string,
    capacity: Number,
    price: Number)

  datatype CreateReservationDto = CreateReservationDto(
    reservationId: string,
    email: string,
    execution: Execution)

  /** The reservation document. Start and end times are parsed into instants by
      `toDate` (JavaScript's `new Date(...)`); `createdAt` is the current time. */
  function ReservationDoc(dto: CreateReservationDto, toDate: string -> Instant, now: Instant): Doc {
    map[
      "userEmail" := Str(dto.email),
      "executionId" := Str(dto.execution.id),
      "programId" := Str(dto.execution.programId),
      "startTime" := Time(toDate(dto.execution.startTime)),
      "endTime" := Time(toDate(dto.execution.endTime)),
      "capacity" := Num(dto.execution.capacity),
      "price" := Num(dto.execution.price),
      "createdAt" := Time(now)
    ]
  }

  /** The event credential payload: the times stay the strings of the request. */
  function EventPayload(dto: CreateReservationDto): EventVcData {
    EventVcData(dto.reservationId, dto.execution.programId, dto.execution.startTime, dto.execution.endTime, dto.execution.price)
  }

  /** `event_{email}_{reservation id}` (or `event_{email}` for an empty id). */
  function EventKey(dto: CreateReservationDto): string {
    EventVcId(dto.email, EventPayload(dto))
  }

  function CreateReservationSpec(db: Db, rejected: set<Path>, dto: CreateReservationDto, toDate: string -> Instant, now: Instant): Effect {
    var e := SetWrite(db, rejected, Path(Reservations, dto.reservationId), ReservationDoc(dto, toDate, now));
    if e.outcome.Err? then e else IssueEventVc(e.db, rejected, dto.email, EventPayload(dto), now)
  }

  /** The three ways a call ends. A refused reservation write changes nothing
      and issues no credential; a refused credential write leaves the
      reservation written and `vcs` unchanged; otherwise exactly the reservation
      document and the event credential are (re)placed. Users and programs are
      never touched. */
  lemma CreateReservationEffect(db: Db, rejected: set<Path>, dto: CreateReservationDto, toDate: string -> Instant, now: Instant)
    ensures var e := CreateReservationSpec(db, rejected, dto, toDate, now);
      var doc := ReservationDoc(dto, toDate, now);
      && e.db.users == db.users && e.db.programs == db.programs
      && (Path(Reservations, dto.reservationId) in rejected ==>
            e == Effect(Err(Unavailable(Path(Reservations, dto.reservationId))), db))
      && (Path(Reservations, dto.reservationId) !in rejected && Path(Vcs, EventKey(dto)) in rejected ==>
            && e.outcome == Err(Unavailable(Path(Vcs, EventKey(dto))))
            && e.db.reservations == db.reservations[dto.reservationId := doc]
            && e.db.vcs == db.vcs)
      && (Path(Reservations, dto.reservationId) !in rejected && Path(Vcs, EventKey(dto)) !in rejected ==>
            && e.outcome == Ok
            && e.db.reservations == db.reservations[dto.reservationId := doc]
            && e.db.vcs == db.vcs[EventKey(dto) := VcRecord(dto.email, Event, EventPayload(dto).ToDoc(), now)])
  {
    var e1 := SetWrite(db, rejected, Path(Reservations, dto.reservationId), ReservationDoc(dto, toDate, now));
    if e1.outcome.Ok? && Path(Vcs, EventKey(dto)) !in rejected {
      var e := IssueEventVc(e1.db, rejected, dto.email, EventPayload(dto), now);
      WrittenAt(e1.db.vcs, e.db.vcs, EventKey(dto));
    }
  }

  /** The reservation document and the event credential's payload describe the
      same booking: the payload names the reservation document, carries the
      program and the price stored with it, and its time strings are the ones
      the stored instants were parsed from. */
  lemma ReservationMatchesCredential(dto: CreateReservationDto, toDate: string -> Instant, now: Instant)
    ensures var res := ReservationDoc(dto, toDate, now);
      var data := EventPayload(dto).ToDoc();
      && res.Keys == {"userEmail", "executionId", "programId", "startTime", "endTime", "capacity", "price", "createdAt"}
      && data.Keys == {"reservationId", "programId", "startTime", "endTime", "price"}
      && data["reservationId"] == Str(dto.reservationId)
      && res["userEmail"] == Str(dto.email)
      && res["programId"] == data["programId"]
      && res["price"] == data["price"]
      && data["startTime"].Str? && res["startTime"] == Time(toDate(data["startTime"].s))
      && data["endTime"].Str? && res["endTime"] == Time(toDate(data["endTime"].s))
  {
  }

  /** On success the booking user's pending credentials gain exactly the event
      credential; every other user's pending credentials are unchanged apart
      from losing any record that was stored under the same key. */
  lemma ReservationPending(db: Db, rejected: set<Path>, dto: CreateReservationDto, toDate: string -> Instant, now: Instant, other: string)
    requires CreateReservationSpec(db, rejected, dto, toDate, now).outcome.Ok?
    requires other != dto.email
    ensures var e := CreateReservationSpec(db, rejected, dto, toDate, now);
      && PendingVcs(e.db.vcs, dto.email) ==
           PendingVcs(db.vcs, dto.email)[EventKey(dto) := VcRecord(dto.email, Event, EventPayload(dto).ToDoc(), now)]
      && PendingVcs(e.db.vcs, other) == PendingVcs(db.vcs, other) - {EventKey(dto)}
  {
    var e1 := SetWrite(db, rejected, Path(Reservations, dto.reservationId), ReservationDoc(dto, toDate, now));
    var e := IssueEventVc(e1.db, rejected, dto.email, EventPayload(dto), now);
    IssuedVcIsPending(e1.db, e.db, EventKey(dto), dto.email, Event, now, other);
    assert PendingVcs(e1.db.vcs, dto.email) == PendingVcs(db.vcs, dto.email);
    assert PendingVcs(e1.db.vcs, other) == PendingVcs(db.vcs, other);
  }

  /** Booking again under the same reservation id and email replaces both
      records: no second reservation and no second credential appear, and both
      hold the second request. */
  lemma ReservationRebook(db: Db, rejected: set<Path>, d1: CreateReservationDto, d2: CreateReservationDto, toDate: string -> Instant, t1: Instant, t2: Instant,
                          e1: Effect, e2: Effect)
    requires d1.reservationId == d2.reservationId && d1.email == d2.email
    requires Path(Reservations, d1.reservationId) !in rejected && Path(Vcs, EventKey(d1)) !in rejected
    requires e1 == CreateReservationSpec(db, rejected, d1, toDate, t1)
    requires e2 == CreateReservationSpec(e1.db, rejected, d2, toDate, t2)
    ensures e2.outcome.Ok?
    ensures e2.db.reservations.Keys == e1.db.reservations.Keys
    ensures e2.db.vcs.Keys == e1.db.vcs.Keys
    ensures e2.db.reservations[d2.reservationId] == ReservationDoc(d2, toDate, t2)
    ensures e2.db.vcs[EventKey(d2)] == VcRecord(d2.email, Event, EventPayload(d2).ToDoc(), t2)
  {
    assert EventKey(d1) == EventKey(d2);
    CreateReservationEffect(db, rejected, d1, toDate, t1);
    CreateReservationEffect(e1.db, rejected, d2, toDate, t2);
  }

  /** ReservationsService over the shared Firestore handle and the credential ledger. */
  class ReservationsService {
    const firestore: Firestore
    const vcsService: VcsService

    constructor (firestore: Firestore, vcsService: VcsService)
      requires vcsService.firestore == firestore
      ensures this.firestore == firestore && this.vcsService == vcsService
      ensures Valid()
    {
      this.firestore := firestore;
      this.vcsService := vcsService;
    }

    /** Both services write through the same store. */
    predicate Valid() {
      vcsService.firestore == firestore
    }

    method CreateReservation(dto: CreateReservationDto, toDate: string -> Instant, now: Instant) returns (r: Outcome)
      requires Valid()
      modifies firestore
      ensures Effect(r, firestore.State()) == CreateReservationSpec(old(firestore.State()), firestore.rejected, dto, toDate, now)
    {
      r := firestore.Set(Path(Reservations, dto.reservationId), ReservationDoc(dto, toDate, now));
      if r.Err? {
        return;
      }
      r := vcsService.CreateEventVC(dto.email, EventPayload(dto), now);
    }
  }
}
