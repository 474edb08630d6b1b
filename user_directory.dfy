/** The User directory of src/users/users.service.ts: registration writes the
    whole user document and then announces a user credential; an update writes
    only the supplied fields and then re-announces the credential with them. */
module UserDirectory {
  import opened Store
  import opened Ledger

  /** One entry of `management_programs`. */
  datatype ProgramRef = ProgramRef(programId: string, role: string)

  function ProgramRefsValue(refs: seq<ProgramRef>): Value {
    List(seq(|refs|, i requires 0 <= i < |refs| =>
      Obj(map["programId" := Str(refs[i].programId), "role" := Str(refs[i].role)])))
  }

  /** The registration request, after validation. */
  datatype CreateUserDto = CreateUserDto(
    id: string,
    email: string,
    familyName: string,
    firstName: string,
    birthYear: Number,
    gender: string,
    zip: string,
    prefecture: string,
    address: string,
    street: string,
    tel: string,
    managementPrograms: Option<seq<ProgramRef>>)

  /** The partial-update request; absent fields are None. */
  datatype UpdateUserDto = UpdateUserDto(
    id: string,
    email: string,
    familyName: Option<string>,
    firstName: Option<string>,
    managementPrograms: Option<seq<ProgramRef>>)

  /** The stored user document: the external id under `onpakuUserId`, the nine
      profile fields, the program list (empty when absent) and `createdAt`. */
  function UserDoc(dto: CreateUserDto, now: Instant): Doc {
    map[
      "onpakuUserId" := Str(dto.id),
      "familyName" := Str(dto.familyName),
      "firstName" := Str(dto.firstName),
      "birthYear" := Num(dto.birthYear),
      "gender" := Str(dto.gender),
      "zip" := Str(dto.zip),
      "prefecture" := Str(dto.prefecture),
      "address" := Str(dto.address),
      "street" := Str(dto.street),
      "tel" := Str(dto.tel),
      "managementPrograms" := ProgramRefsValue(if dto.managementPrograms.Some? then dto.managementPrograms.value else []),
      "createdAt" := Time(now)
    ]
  }

  /** The payload of the user credential announced on registration. */
  function UserVcPayload(dto: CreateUserDto): Doc {
    map[
      "id" := Str(dto.id),
      "familyName" := Str(dto.familyName),
      "firstName" := Str(dto.firstName),
      "birthYear" := Num(dto.birthYear),
      "gender" := Str(dto.gender),
      "zip" := Str(dto.zip),
      "prefecture" := Str(dto.prefecture),
      "address" := Str(dto.address),
      "street" := Str(dto.street),
      "tel" := Str(dto.tel)
    ]
  }

  /** The fields an update writes: a name only when it is supplied and not
      empty, the program list whenever it is supplied (even empty). */
  function UpdateData(dto: UpdateUserDto): (data: Doc)
    ensures "familyName" in data <==> Truthy(dto.familyName)
    ensures "firstName" in data <==> Truthy(dto.firstName)
    ensures "managementPrograms" in data <==> dto.managementPrograms.Some?
    ensures data.Keys <= {"familyName", "firstName", "managementPrograms"}
    ensures "familyName" in data ==> data["familyName"] == Str(dto.familyName.value)
    ensures "firstName" in data ==> data["firstName"] == Str(dto.firstName.value)
    ensures "managementPrograms" in data ==> data["managementPrograms"] == ProgramRefsValue(dto.managementPrograms.value)
  {
    var d: Doc := map[];
    var d := if Truthy(dto.familyName) then d["familyName" := Str(dto.familyName.value)] else d;
    var d := if Truthy(dto.firstName) then d["firstName" := Str(dto.firstName.value)] else d;
    if dto.managementPrograms.Some? then d["managementPrograms" := ProgramRefsValue(dto.managementPrograms.value)] else d
  }

  /** The payload of the user credential re-announced on update: the external
      id and the supplied names, never the program list. */
  function UpdateVcPayload(dto: UpdateUserDto): (data: Doc)
    ensures data.Keys ==
      {"id"} + (if Truthy(dto.familyName) then {"familyName"} else {})
             + (if Truthy(dto.firstName) then {"firstName"} else {})
    ensures data["id"] == Str(dto.id)
    ensures "familyName" in data ==> data["familyName"] == Str(dto.familyName.value)
    ensures "firstName" in data ==> data["firstName"] == Str(dto.firstName.value)
  {
    var d: Doc := map["id" := Str(dto.id)];
    var d := if Truthy(dto.familyName) then d["familyName" := Str(dto.familyName.value)] else d;
    if Truthy(dto.firstName) then d["firstName" := Str(dto.firstName.value)] else d
  }

  function CreateUserSpec(db: Db, rejected: set<Path>, dto: CreateUserDto, now: Instant): Effect {
    var e := SetWrite(db, rejected, Path(Users, dto.email), UserDoc(dto, now));
    if e.outcome.Err? then e else IssueUserVc(e.db, rejected, dto.email, UserVcPayload(dto), now)
  }

  function UpdateUserSpec(db: Db, rejected: set<Path>, dto: UpdateUserDto, now: Instant): Effect {
    var e := UpdateWrite(db, rejected, Path(Users, dto.email), UpdateData(dto));
    if e.outcome.Err? then e else IssueUserVc(e.db, rejected, dto.email, UpdateVcPayload(dto), now)
  }

  /** The stored user and the announced credential carry the same profile: the
      credential's `id` is the stored `onpakuUserId` and the other nine fields
      are equal; a request without programs stores an empty list. */
  lemma UserDocMatchesCredential(dto: CreateUserDto, now: Instant)
    ensures UserVcPayload(dto)["id"] == UserDoc(dto, now)["onpakuUserId"]
    ensures forall f :: f in UserVcPayload(dto) && f != "id" ==> f in UserDoc(dto, now) && UserVcPayload(dto)[f] == UserDoc(dto, now)[f]
    ensures dto.managementPrograms.None? ==> UserDoc(dto, now)["managementPrograms"] == List([])
  {
  }

  /** The stored user has exactly the credential's fields with `id` renamed to
      `onpakuUserId`, plus the program list and the creation time, which the
      credential does not carry. */
  lemma UserDocFields(dto: CreateUserDto, now: Instant)
    ensures UserDoc(dto, now).Keys == (UserVcPayload(dto).Keys - {"id"}) + {"onpakuUserId", "managementPrograms", "createdAt"}
    ensures "managementPrograms" !in UserVcPayload(dto) && "onpakuUserId" !in UserVcPayload(dto) && "createdAt" !in UserVcPayload(dto)
  {
  }

  /** Registration: the user document is replaced, then exactly one user
      credential is announced for that email; if the user write fails nothing
      is written at all; if only the credential write fails the user stays written. */
  lemma CreateUserEffect(db: Db, rejected: set<Path>, dto: CreateUserDto, now: Instant)
    ensures var e := CreateUserSpec(db, rejected, dto, now);
      && (Path(Users, dto.email) in rejected ==> e == Effect(Err(Unavailable(Path(Users, dto.email))), db))
      && (e.outcome.Ok? <==> Path(Users, dto.email) !in rejected && Path(Vcs, UserVcId(dto.email)) !in rejected)
      && e.db.programs == db.programs && e.db.reservations == db.reservations
      && (Path(Users, dto.email) !in rejected ==> e.db.users == db.users[dto.email := UserDoc(dto, now)])
      && (Path(Users, dto.email) !in rejected && Path(Vcs, UserVcId(dto.email)) in rejected ==>
            e.outcome == Err(Unavailable(Path(Vcs, UserVcId(dto.email)))) && e.db.vcs == db.vcs)
      && e.db.vcs - {UserVcId(dto.email)} == db.vcs - {UserVcId(dto.email)}
      && (e.outcome.Ok? ==>
            && UserVcId(dto.email) in e.db.vcs
            && IssuedTo(e.db.vcs[UserVcId(dto.email)], dto.email, User, now))
      && (e.outcome.Ok? && UserVcId(dto.email) !in db.vcs ==>
            e.db.vcs[UserVcId(dto.email)] == VcRecord(dto.email, User, UserVcPayload(dto), now))
  {
    var e1 := SetWrite(db, rejected, Path(Users, dto.email), UserDoc(dto, now));
    if e1.outcome.Ok? && Path(Vcs, UserVcId(dto.email)) !in rejected {
      UserVcRecord(e1.db, rejected, dto.email, UserVcPayload(dto), now);
    }
  }

  /** Update failures: a request with nothing to write, a refused user write
      or a missing user fails before anything is written, and no credential is
      announced. */
  lemma UpdateUserFailure(db: Db, rejected: set<Path>, dto: UpdateUserDto, now: Instant)
    ensures var e := UpdateUserSpec(db, rejected, dto, now);
      && (UpdateData(dto) == map[] ==> e == Effect(Err(NoFieldsToUpdate(Path(Users, dto.email))), db))
      && (UpdateData(dto) != map[] && Path(Users, dto.email) in rejected ==>
            e == Effect(Err(Unavailable(Path(Users, dto.email))), db))
      && (UpdateData(dto) != map[] && Path(Users, dto.email) !in rejected && dto.email !in db.users ==>
            e == Effect(Err(NotFound(Path(Users, dto.email))), db))
      && (e.outcome.Ok? <==>
            && UpdateData(dto) != map[] && dto.email in db.users
            && Path(Users, dto.email) !in rejected && Path(Vcs, UserVcId(dto.email)) !in rejected)
      && e.db.programs == db.programs && e.db.reservations == db.reservations
      && e.db.vcs - {UserVcId(dto.email)} == db.vcs - {UserVcId(dto.email)}
  {
  }

  /** A successful update keeps every stored field it does not write, takes the
      supplied ones (the program list replaced as a whole), touches no other
      user, and re-announces the user credential, merging the new payload into
      its stored `vcData`. */
  lemma UpdateUserSuccess(db: Db, rejected: set<Path>, dto: UpdateUserDto, now: Instant)
    requires UpdateUserSpec(db, rejected, dto, now).outcome.Ok?
    ensures dto.email in db.users
    ensures var e := UpdateUserSpec(db, rejected, dto, now);
      && e.db.users == db.users[dto.email := db.users[dto.email] + UpdateData(dto)]
      && (forall f :: f in db.users[dto.email] && f !in UpdateData(dto) ==>
            e.db.users[dto.email][f] == db.users[dto.email][f])
      && (dto.managementPrograms.Some? ==>
            e.db.users[dto.email]["managementPrograms"] == ProgramRefsValue(dto.managementPrograms.value))
      && UserVcId(dto.email) in e.db.vcs
      && IssuedTo(e.db.vcs[UserVcId(dto.email)], dto.email, User, now)
      && "vcData" in e.db.vcs[UserVcId(dto.email)]
      && e.db.vcs[UserVcId(dto.email)]["vcData"] ==
           (if UserVcId(dto.email) in db.vcs && "vcData" in db.vcs[UserVcId(dto.email)]
            then MergeValue(db.vcs[UserVcId(dto.email)]["vcData"], Obj(UpdateVcPayload(dto)))
            else Obj(UpdateVcPayload(dto)))
  {
    var p := Path(Users, dto.email);
    var e1 := UpdateWrite(db, rejected, p, UpdateData(dto));
    assert e1.outcome.Ok?;
    assert e1.db.users == db.users[dto.email := db.users[dto.email] + UpdateData(dto)];
    UserVcRecord(e1.db, rejected, dto.email, UpdateVcPayload(dto), now);
  }

  /** UsersService over the shared Firestore handle and the credential ledger. */
  class UsersService {
    const firestore: Firestore
    const vcsService: VcsService

    constructor (firestore: Firestore, vcsService: VcsService)
      requires vcsService.firestore == firestore
      ensures this.firestore == firestore && this.vcsService == vcsService
      ensures Valid()
    {
      this.firestore := firestore;
      this.vcsService := vcsService;
    }

    /** Both services write through the same store. */
    predicate Valid() {
      vcsService.firestore == firestore
    }

    method CreateUser(dto: CreateUserDto, now: Instant) returns (r: Outcome)
      requires Valid()
      modifies firestore
      ensures Effect(r, firestore.State()) == CreateUserSpec(old(firestore.State()), firestore.rejected, dto, now)
    {
      r := firestore.Set(Path(Users, dto.email), UserDoc(dto, now));
      if r.Err? {
        return;
      }
      r := vcsService.CreateOrUpdateUserVC(dto.email, UserVcPayload(dto), now);
    }

    method UpdateUser(dto: UpdateUserDto, now: Instant) returns (r: Outcome)
      requires Valid()
      modifies firestore
      ensures Effect(r, firestore.State()) == UpdateUserSpec(old(firestore.State()), firestore.rejected, dto, now)
    {
      var updateData: Doc := map[];
      updateData := if Truthy(dto.familyName) then updateData["familyName" := Str(dto.familyName.value)] else updateData;
      updateData := if Truthy(dto.firstName) then updateData["firstName" := Str(dto.firstName.value)] else updateData;
      updateData := if dto.managementPrograms.Some? then
        updateData["managementPrograms" := ProgramRefsValue(dto.managementPrograms.value)] else updateData;
      assert updateData == UpdateData(dto);

      r := firestore.Update(Path(Users, dto.email), updateData);
      if r.Err? {
        return;
      }

      var userData: Doc := map["id" := Str(dto.id)];
      userData := if Truthy(dto.familyName) then userData["familyName" := Str(dto.familyName.value)] else userData;
      userData := if Truthy(dto.firstName) then userData["firstName" := Str(dto.firstName.value)] else userData;
      assert userData == UpdateVcPayload(dto);
      r := vcsService.CreateOrUpdateUserVC(dto.email, userData, now);
    }
  }
}
