/** The three services run one after another on one store: a user registers,
    a program lists that user as its partner, and the user books a session of
    it. The user then has exactly three pending credentials, one of each type. */
module Workflow {
  import opened Store
  import opened Ledger
  import opened UserDirectory
  import opened ProgramRegistry
  import opened ReservationIntake

  /** One credential written as pending for `email`, the rest of `vcs` kept:
      the pending ids of `email` gain exactly that id. */
  lemma PendingKeysAfter(before: Table, after: Table, id: string, email: string, t: VCType, now: Instant)
    requires after - {id} == before - {id}
    requires id in after && IssuedTo(after[id], email, t, now)
    ensures PendingVcs(after, email).Keys == PendingVcs(before, email).Keys + {id}
  {
    WrittenAt(before, after, id);
    PendingAfterWrite(before, id, after[id], email);
  }

  /** Registration with no refused write adds the user credential to the user's pending ids. */
  lemma UserStage(db: Db, rejected: set<Path>, user: CreateUserDto, now: Instant)
    requires Path(Users, user.email) !in rejected && Path(Vcs, UserVcId(user.email)) !in rejected
    ensures var e := CreateUserSpec(db, rejected, user, now);
      && e.outcome.Ok?
      && PendingVcs(e.db.vcs, user.email).Keys == PendingVcs(db.vcs, user.email).Keys + {UserVcId(user.email)}
  {
    var e := CreateUserSpec(db, rejected, user, now);
    CreateUserEffect(db, rejected, user, now);
    PendingKeysAfter(db.vcs, e.db.vcs, UserVcId(user.email), user.email, User, now);
  }

  /** A program listing only `email` as partner adds that partner credential to its pending ids. */
  lemma ProgramStage(db: Db, rejected: set<Path>, dto: CreateProgramDto, email: string, role: string, now: Instant)
    requires dto.partnerUsers == [PartnerUser(email, role)]
    requires Path(Programs, dto.program.id) !in rejected && Path(Vcs, PartnerKey(dto.program, email)) !in rejected
    ensures var e := CreateOrUpdateProgramSpec(db, rejected, dto, now);
      && e.outcome.Ok?
      && PendingVcs(e.db.vcs, email).Keys == PendingVcs(db.vcs, email).Keys + {PartnerKey(dto.program, email)}
  {
    var e := CreateOrUpdateProgramSpec(db, rejected, dto, now);
    var key := PartnerKey(dto.program, email);
    assert PartnerKeys(dto.program, dto.partnerUsers) == {key};
    ProgramCallFrame(db, rejected, dto, now);
    ProgramCreateIssues(db, rejected, dto, now);
    PendingKeysAfter(db.vcs, e.db.vcs, key, email, Partner, now);
  }

  /** A booking with no refused write adds the event credential to the booker's pending ids. */
  lemma BookingStage(db: Db, rejected: set<Path>, booking: CreateReservationDto, toDate: string -> Instant, now: Instant)
    requires Path(Reservations, booking.reservationId) !in rejected && Path(Vcs, EventKey(booking)) !in rejected
    ensures var e := CreateReservationSpec(db, rejected, booking, toDate, now);
      && e.outcome.Ok?
      && PendingVcs(e.db.vcs, booking.email).Keys == PendingVcs(db.vcs, booking.email).Keys + {EventKey(booking)}
  {
    var e := CreateReservationSpec(db, rejected, booking, toDate, now);
    CreateReservationEffect(db, rejected, booking, toDate, now);
    assert e.db.vcs - {EventKey(booking)} == db.vcs - {EventKey(booking)};
    PendingKeysAfter(db.vcs, e.db.vcs, EventKey(booking), booking.email, Event, now);
  }

  /** Register, be listed as a program's only partner, book: on a store that
      refuses nothing and starting with nothing pending, the three calls
      succeed and the user ends with exactly three pending credentials, one of
      each type. */
  lemma Journey(db: Db, rejected: set<Path>, user: CreateUserDto, program: CreateProgramDto, role: string,
                booking: CreateReservationDto, toDate: string -> Instant, t1: Instant, t2: Instant, t3: Instant,
                e1: Effect, e2: Effect, e3: Effect)
    requires rejected == {}
    requires PendingVcs(db.vcs, user.email) == map[]
    requires program.partnerUsers == [PartnerUser(user.email, role)]
    requires booking.email == user.email
    requires e1 == CreateUserSpec(db, rejected, user, t1)
    requires e2 == CreateOrUpdateProgramSpec(e1.db, rejected, program, t2)
    requires e3 == CreateReservationSpec(e2.db, rejected, booking, toDate, t3)
    ensures e1.outcome.Ok? && e2.outcome.Ok? && e3.outcome.Ok?
    ensures PendingVcs(e3.db.vcs, user.email).Keys ==
      {UserVcId(user.email), PartnerKey(program.program, user.email), EventKey(booking)}
    ensures |PendingVcs(e3.db.vcs, user.email)| == 3
  {
    UserStage(db, rejected, user, t1);
    ProgramStage(e1.db, rejected, program, user.email, role, t2);
    BookingStage(e2.db, rejected, booking, toDate, t3);
    var u, p, v := UserVcId(user.email), PartnerKey(program.program, user.email), EventKey(booking);
    assert u != p && u != v && p != v by {
      VcIdTypesDisjoint(User, user.email, None, Partner, user.email, Some(program.program.id));
      VcIdTypesDisjoint(User, user.email, None, Event, user.email, Some(booking.reservationId));
      VcIdTypesDisjoint(Partner, user.email, Some(program.program.id), Event, user.email, Some(booking.reservationId));
    }
    AddThree(PendingVcs(db.vcs, user.email), PendingVcs(e1.db.vcs, user.email), PendingVcs(e2.db.vcs, user.email),
             PendingVcs(e3.db.vcs, user.email), u, p, v);
  }

  /** Three views, each the previous one plus one new id, starting empty. */
  lemma AddThree(m0: Table, m1: Table, m2: Table, m3: Table, a: string, b: string, c: string)
    requires m0 == map[]
    requires m1.Keys == m0.Keys + {a} && m2.Keys == m1.Keys + {b} && m3.Keys == m2.Keys + {c}
    requires a != b && a != c && b != c
    ensures m3.Keys == {a, b, c}
    ensures |m3| == 3
  {
    assert m3.Keys == {a} + {b} + {c};
    assert |m3.Keys| == |{a} + {b}| + 1;
  }
}
