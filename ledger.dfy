/** The credential (VC) ledger of src/vcs/vcs.service.ts: the derivation of a
    credential's document id, the three issuance operations, the pending query
    and the two status overwrites, all on the `vcs` collection. */
module Ledger {
  import opened Store

  datatype VCType = User | Partner | Event

  /** The enum's string value, which is also the first part of a credential id. */
  function TypeName(t: VCType): string {
    match t
    case User => "user"
    case Partner => "partner"
    case Event => "event"
  }

  /** The four declared statuses and the two (Active, Revoked) that the status
      overwrites use although the enum does not declare them. */
  datatype VCStatus = Pending | Completed | Failed | InProgress | Active | Revoked

  function StatusName(s: VCStatus): string {
    match s
    case Pending => "pending"
    case Completed => "completed"
    case Failed => "failed"
    case InProgress => "in-progress"
    case Active => "active"
    case Revoked => "revoked"
  }

  /** `{type}_{email}_{additionalId}`, or `{type}_{email}` when the additional
      id is missing or empty. Nothing is escaped. */
  function GenerateVcId(t: VCType, email: string, additionalId: Option<string>): string {
    if Truthy(additionalId) then TypeName(t) + "_" + email + "_" + additionalId.value
    else TypeName(t) + "_" + email
  }

  /** The fields every issuance writes. */
  function VcRecord(email: string, t: VCType, vcData: Doc, issuedAt: Instant): Doc {
    map[
      "userEmail" := Str(email),
      "type" := Str(TypeName(t)),
      "vcData" := Obj(vcData),
      "status" := Str(StatusName(Pending)),
      "issuedAt" := Time(issuedAt)
    ]
  }

  /** A freshly written record is issued to its subject, pending, at its time. */
  lemma VcRecordIssued(email: string, t: VCType, vcData: Doc, issuedAt: Instant)
    ensures IssuedTo(VcRecord(email, t, vcData, issuedAt), email, t, issuedAt)
  {
  }

  /** The payload of a partner credential, as ProgramsService builds it. */
  datatype PartnerVcData = PartnerVcData(
    id: string, title: string, role: string, placeName: string, prefecture: string, address: string)
  {
    function ToDoc(): Doc {
      map[
        "id" := Str(id),
        "title" := Str(title),
        "role" := Str(role),
        "placeName" := Str(placeName),
        "prefecture" := Str(prefecture),
        "address" := Str(address)
      ]
    }
  }

  /** The payload of an event credential, as ReservationsService builds it. */
  datatype EventVcData = EventVcData(
    reservationId: string, programId: string, startTime: string, endTime: string, price: Number)
  {
    function ToDoc(): Doc {
      map[
        "reservationId" := Str(reservationId),
        "programId" := Str(programId),
        "startTime" := Str(startTime),
        "endTime" := Str(endTime),
        "price" := Num(price)
      ]
    }
  }

  function UserVcId(email: string): string {
    GenerateVcId(User, email, None)
  }

  function PartnerVcId(email: string, data: PartnerVcData): string {
    GenerateVcId(Partner, email, Some(data.id))
  }

  function EventVcId(email: string, data: EventVcData): string {
    GenerateVcId(Event, email, Some(data.reservationId))
  }

  /** `after` differs from `before` at most in the credential `id`, which it keeps if it was there. */
  predicate OnlyVcChanged(before: Db, after: Db, id: string) {
    && after.users == before.users
    && after.programs == before.programs
    && after.reservations == before.reservations
    && after.vcs - {id} == before.vcs - {id}
    && (id in before.vcs ==> id in after.vcs)
  }

  /** The scalar fields of a freshly issued credential. */
  predicate IssuedTo(rec: Doc, email: string, t: VCType, now: Instant) {
    && "userEmail" in rec && rec["userEmail"] == Str(email)
    && "type" in rec && rec["type"] == Str(TypeName(t))
    && "status" in rec && rec["status"] == Str(StatusName(Pending))
    && "issuedAt" in rec && rec["issuedAt"] == Time(now)
  }

  /** createOrUpdateUserVC: merge-write of the user credential. */
  function IssueUserVc(db: Db, rejected: set<Path>, email: string, userData: Doc, now: Instant): (e: Effect)
    ensures e.outcome == (if Path(Vcs, UserVcId(email)) in rejected then Err(Unavailable(Path(Vcs, UserVcId(email)))) else Ok)
    ensures e.outcome.Err? ==> e.db == db
    ensures OnlyVcChanged(db, e.db, UserVcId(email))
    ensures e.outcome.Ok? ==> UserVcId(email) in e.db.vcs
  {
    MergeWrite(db, rejected, Path(Vcs, UserVcId(email)), VcRecord(email, User, userData, now))
  }

  /** The user credential after a successful write: the five written fields,
      with the payload merged into any stored `vcData`; fields stored earlier
      and not written survive; a new credential holds exactly the record. */
  lemma UserVcRecord(db: Db, rejected: set<Path>, email: string, userData: Doc, now: Instant)
    requires Path(Vcs, UserVcId(email)) !in rejected
    ensures var e := IssueUserVc(db, rejected, email, userData, now);
      var id := UserVcId(email);
      var before := if id in db.vcs then db.vcs[id] else map[];
      && id in e.db.vcs
      && IssuedTo(e.db.vcs[id], email, User, now)
      && e.db.vcs[id].Keys == before.Keys + VcRecord(email, User, userData, now).Keys
      && (forall f :: f in before && f !in VcRecord(email, User, userData, now) ==> e.db.vcs[id][f] == before[f])
      && e.db.vcs[id]["vcData"] == (if "vcData" in before then MergeValue(before["vcData"], Obj(userData)) else Obj(userData))
      && (id !in db.vcs ==> e.db.vcs[id] == VcRecord(email, User, userData, now))
  {
    var id := UserVcId(email);
    var before := if id in db.vcs then db.vcs[id] else map[];
    var rec := VcRecord(email, User, userData, now);
    var e := IssueUserVc(db, rejected, email, userData, now);
    assert e.db.vcs[id] == MergeDoc(before, rec);
    MergedRecord(before, rec, e.db.vcs[id], email, User, userData, now);
  }

  /** A record merged over whatever was stored: its scalar fields are the
      written ones, its payload is merged into the stored one, other stored
      fields survive, and over nothing it is the record itself. */
  lemma MergedRecord(before: Doc, rec: Doc, d: Doc, email: string, t: VCType, vcData: Doc, now: Instant)
    requires rec == VcRecord(email, t, vcData, now)
    requires d == MergeDoc(before, rec)
    ensures IssuedTo(d, email, t, now)
    ensures d.Keys == before.Keys + rec.Keys
    ensures forall f :: f in before && f !in rec ==> d[f] == before[f]
    ensures d["vcData"] == (if "vcData" in before then MergeValue(before["vcData"], Obj(vcData)) else Obj(vcData))
    ensures before == map[] ==> d == rec
  {
    if before == map[] {
      MergeIntoNothing(rec);
    }
  }

  /** createPartnerVC: full replacement of the partner credential. */
  function IssuePartnerVc(db: Db, rejected: set<Path>, email: string, data: PartnerVcData, now: Instant): (e: Effect)
    ensures e.outcome == (if Path(Vcs, PartnerVcId(email, data)) in rejected then Err(Unavailable(Path(Vcs, PartnerVcId(email, data)))) else Ok)
    ensures e.outcome.Err? ==> e.db == db
    ensures OnlyVcChanged(db, e.db, PartnerVcId(email, data))
    ensures e.outcome.Ok? ==>
      && PartnerVcId(email, data) in e.db.vcs
      && IssuedTo(e.db.vcs[PartnerVcId(email, data)], email, Partner, now)
      && e.db.vcs[PartnerVcId(email, data)] == VcRecord(email, Partner, data.ToDoc(), now)
  {
    SetWrite(db, rejected, Path(Vcs, PartnerVcId(email, data)), VcRecord(email, Partner, data.ToDoc(), now))
  }

  /** createEventVC: full replacement of the event credential. */
  function IssueEventVc(db: Db, rejected: set<Path>, email: string, data: EventVcData, now: Instant): (e: Effect)
    ensures e.outcome == (if Path(Vcs, EventVcId(email, data)) in rejected then Err(Unavailable(Path(Vcs, EventVcId(email, data)))) else Ok)
    ensures e.outcome.Err? ==> e.db == db
    ensures OnlyVcChanged(db, e.db, EventVcId(email, data))
    ensures e.outcome.Ok? ==>
      && EventVcId(email, data) in e.db.vcs
      && IssuedTo(e.db.vcs[EventVcId(email, data)], email, Event, now)
      && e.db.vcs[EventVcId(email, data)] == VcRecord(email, Event, data.ToDoc(), now)
  {
    SetWrite(db, rejected, Path(Vcs, EventVcId(email, data)), VcRecord(email, Event, data.ToDoc(), now))
  }

  /** activateVC / revokeVC: `update` of the status field of an existing credential. */
  function SetStatus(db: Db, rejected: set<Path>, vcId: string, status: VCStatus): (e: Effect)
    ensures e.outcome ==
      if Path(Vcs, vcId) in rejected then Err(Unavailable(Path(Vcs, vcId)))
      else if vcId !in db.vcs then Err(NotFound(Path(Vcs, vcId)))
      else Ok
    ensures e.outcome.Err? ==> e.db == db
    ensures OnlyVcChanged(db, e.db, vcId)
    ensures e.outcome.Ok? ==>
      && vcId in e.db.vcs
      && e.db.vcs[vcId].Keys == db.vcs[vcId].Keys + {"status"}
      && e.db.vcs[vcId]["status"] == Str(StatusName(status))
      && (forall f :: f in db.vcs[vcId] && f != "status" ==> e.db.vcs[vcId][f] == db.vcs[vcId][f])
  {
    var data := map["status" := Str(StatusName(status))];
    assert "status" in data;
    UpdateWrite(db, rejected, Path(Vcs, vcId), data)
  }

  predicate PendingFor(rec: Doc, email: string) {
    && "userEmail" in rec && rec["userEmail"] == Str(email)
    && "status" in rec && rec["status"] == Str(StatusName(Pending))
  }

  /** The query `where userEmail == email and status == pending`, by document id. */
  function PendingVcs(vcs: Table, email: string): Table {
    map id | id in vcs && PendingFor(vcs[id], email) :: vcs[id]
  }

  /** `issuedAt` holds a Timestamp, so `issuedAt.toDate()` succeeds. */
  predicate Stamped(rec: Doc) {
    "issuedAt" in rec && rec["issuedAt"].Time?
  }

  /** What getPendingVCsByEmail returns: the matching records, or the failure
      that ends it. */
  datatype Query = Found(records: Table) | Refused(error: Error)

  /** getPendingVCsByEmail: the query fails when the store refuses it, and
      otherwise when a matching record's `issuedAt` is not a Timestamp (its
      `toDate()` throws). Converting a Timestamp to a Date keeps the instant,
      so a successful query returns the matching records as stored. */
  function PendingQuery(vcs: Table, unreadable: set<Collection>, email: string): (q: Query)
    ensures Vcs in unreadable ==> q == Refused(QueryRefused(Vcs))
    ensures q.Refused? <==>
      Vcs in unreadable || exists id :: id in vcs && PendingFor(vcs[id], email) && !Stamped(vcs[id])
    ensures q.Found? ==>
      && (forall id :: id in q.records <==> id in vcs && PendingFor(vcs[id], email))
      && (forall id :: id in q.records ==> q.records[id] == vcs[id])
  {
    if Vcs in unreadable then Refused(QueryRefused(Vcs))
    else
      var found := PendingVcs(vcs, email);
      if forall id :: id in found ==> Stamped(found[id]) then
        assert forall id :: id in vcs && PendingFor(vcs[id], email) ==> id in found && found[id] == vcs[id];
        Found(found)
      else Refused(MissingTimestamp(Vcs))
  }

  /** Issuances write a Timestamp, so a readable ledger whose pending records
      for `email` are all stamped still answers after an issuance to `email`,
      with that credential added. */
  lemma QueryAfterIssue(before: Db, after: Db, unreadable: set<Collection>, id: string, email: string, t: VCType, now: Instant)
    requires Vcs !in unreadable
    requires forall k :: k in PendingVcs(before.vcs, email) ==> Stamped(PendingVcs(before.vcs, email)[k])
    requires OnlyVcChanged(before, after, id)
    requires id in after.vcs && IssuedTo(after.vcs[id], email, t, now)
    ensures PendingQuery(after.vcs, unreadable, email) == Found(PendingVcs(before.vcs, email)[id := after.vcs[id]])
  {
    WrittenAt(before.vcs, after.vcs, id);
    PendingAfterWrite(before.vcs, id, after.vcs[id], email);
    var found := PendingVcs(after.vcs, email);
    assert found == PendingVcs(before.vcs, email)[id := after.vcs[id]];
    assert forall k :: k in found ==> Stamped(found[k]);
  }

  /** Ids of different credential types never coincide: their first characters differ. */
  lemma VcIdTypesDisjoint(t1: VCType, e1: string, a1: Option<string>, t2: VCType, e2: string, a2: Option<string>)
    requires t1 != t2
    ensures GenerateVcId(t1, e1, a1) != GenerateVcId(t2, e2, a2)
  {
    assert GenerateVcId(t1, e1, a1)[0] == TypeName(t1)[0];
    assert GenerateVcId(t2, e2, a2)[0] == TypeName(t2)[0];
  }

  /** With the same additional id, the derived id determines the type and the email. */
  lemma VcIdDeterminesEmail(t1: VCType, e1: string, t2: VCType, e2: string, a: Option<string>)
    requires GenerateVcId(t1, e1, a) == GenerateVcId(t2, e2, a)
    ensures t1 == t2 && e1 == e2
  {
    if t1 != t2 {
      VcIdTypesDisjoint(t1, e1, a, t2, e2, a);
    }
    var p := TypeName(t1) + "_";
    var x := if Truthy(a) then "_" + a.value else "";
    assert GenerateVcId(t1, e1, a) == p + e1 + x;
    assert GenerateVcId(t2, e2, a) == p + e2 + x;
    var id := p + e1 + x;
    assert e1 == id[|p|..|id| - |x|];
    assert e2 == (p + e2 + x)[|p|..|id| - |x|];
  }

  /** The index of the first '_' in `s`, or |s| when there is none. */
  function FirstSeparator(s: string): (i: nat)
    ensures i <= |s|
  {
    if s == [] || s[0] == '_' then 0 else 1 + FirstSeparator(s[1..])
  }

  lemma {:induction false} FirstSeparatorAfter(e: string, x: string)
    requires '_' !in e
    requires x == [] || x[0] == '_'
    ensures FirstSeparator(e + x) == |e|
  {
    if e != [] {
      assert (e + x)[0] == e[0];
      assert (e + x)[1..] == e[1..] + x;
      FirstSeparatorAfter(e[1..], x);
    }
  }

  /** An email without '_' followed by nothing or by a '_'-led suffix can be read back. */
  lemma UnderscoreFreePrefix(e1: string, x1: string, e2: string, x2: string)
    requires '_' !in e1 && '_' !in e2
    requires x1 == [] || x1[0] == '_'
    requires x2 == [] || x2[0] == '_'
    requires e1 + x1 == e2 + x2
    ensures e1 == e2 && x1 == x2
  {
    var s := e1 + x1;
    FirstSeparatorAfter(e1, x1);
    FirstSeparatorAfter(e2, x2);
    assert e1 == s[..|e1|];
    assert e2 == s[..|e2|];
    assert x1 == s[|e1|..];
    assert x2 == (e2 + x2)[|e2|..];
  }

  /** When emails contain no '_', a credential id determines its type, its email
      and its additional id (up to the missing/empty distinction). */
  lemma VcIdUnambiguous(t1: VCType, e1: string, a1: Option<string>, t2: VCType, e2: string, a2: Option<string>)
    requires '_' !in e1 && '_' !in e2
    requires GenerateVcId(t1, e1, a1) == GenerateVcId(t2, e2, a2)
    ensures t1 == t2 && e1 == e2
    ensures Truthy(a1) <==> Truthy(a2)
    ensures Truthy(a1) ==> a1.value == a2.value
  {
    if t1 != t2 {
      VcIdTypesDisjoint(t1, e1, a1, t2, e2, a2);
    }
    var p := TypeName(t1) + "_";
    var x1 := if Truthy(a1) then "_" + a1.value else "";
    var x2 := if Truthy(a2) then "_" + a2.value else "";
    assert GenerateVcId(t1, e1, a1) == p + (e1 + x1);
    assert GenerateVcId(t2, e2, a2) == p + (e2 + x2);
    assert e1 + x1 == (p + (e1 + x1))[|p|..];
    assert e2 + x2 == (p + (e2 + x2))[|p|..];
    UnderscoreFreePrefix(e1, x1, e2, x2);
    if Truthy(a1) {
      assert a1.value == x1[1..];
    }
    if Truthy(a2) {
      assert a2.value == x2[1..];
    }
  }

  /** Without that restriction, two different (email, program id) pairs can
      share a partner credential: the id derivation does no escaping. */
  lemma VcIdCollision()
    ensures GenerateVcId(Partner, "a_b", Some("c")) == GenerateVcId(Partner, "a", Some("b_c"))
  {
  }

  /** A table that differs from another at most at `id`, and holds `id`, is that
      other table with one record written. */
  lemma WrittenAt(before: Table, after: Table, id: string)
    requires after - {id} == before - {id}
    requires id in after
    ensures after == before[id := after[id]]
  {
    var m := before[id := after[id]];
    forall k
      ensures k in after <==> k in m
      ensures k in after && k != id ==> after[k] == m[k]
    {
      if k != id {
        assert k in after <==> k in after - {id};
        assert k in before <==> k in before - {id};
        if k in after {
          assert after[k] == (after - {id})[k];
        }
      }
    }
  }

  /** Every issuance adds at most one credential: exactly one when the id was new. */
  lemma IssuanceCount(before: Db, after: Db, id: string)
    requires OnlyVcChanged(before, after, id)
    requires id in after.vcs
    ensures |after.vcs| == |before.vcs| + (if id in before.vcs then 0 else 1)
  {
    WrittenAt(before.vcs, after.vcs, id);
  }

  /** How the pending view changes when one record is written. */
  lemma {:induction false} PendingAfterWrite(vcs: Table, id: string, rec: Doc, email: string)
    ensures PendingVcs(vcs[id := rec], email) ==
      if PendingFor(rec, email) then PendingVcs(vcs, email)[id := rec] else PendingVcs(vcs, email) - {id}
  {
    var lhs := PendingVcs(vcs[id := rec], email);
    var rhs := if PendingFor(rec, email) then PendingVcs(vcs, email)[id := rec] else PendingVcs(vcs, email) - {id};
    assert lhs.Keys == rhs.Keys;
    assert forall k | k in lhs :: lhs[k] == rhs[k];
  }

  /** A successful issuance adds the credential to its subject's pending view and
      removes that id from every other email's view. */
  lemma IssuedVcIsPending(before: Db, after: Db, id: string, email: string, t: VCType, now: Instant, other: string)
    requires OnlyVcChanged(before, after, id)
    requires id in after.vcs && IssuedTo(after.vcs[id], email, t, now)
    requires other != email
    ensures PendingVcs(after.vcs, email) == PendingVcs(before.vcs, email)[id := after.vcs[id]]
    ensures PendingVcs(after.vcs, other) == PendingVcs(before.vcs, other) - {id}
  {
    WrittenAt(before.vcs, after.vcs, id);
    PendingAfterWrite(before.vcs, id, after.vcs[id], email);
    PendingAfterWrite(before.vcs, id, after.vcs[id], other);
  }

  /** Activating or revoking a credential removes it from every pending view
      and leaves the other pending records as they were. */
  lemma StatusChangeLeavesPending(db: Db, rejected: set<Path>, vcId: string, status: VCStatus, email: string)
    requires status != Pending
    requires SetStatus(db, rejected, vcId, status).outcome.Ok?
    ensures PendingVcs(SetStatus(db, rejected, vcId, status).db.vcs, email) == PendingVcs(db.vcs, email) - {vcId}
  {
    var after := SetStatus(db, rejected, vcId, status).db;
    WrittenAt(db.vcs, after.vcs, vcId);
    assert StatusName(status) != StatusName(Pending);
    PendingAfterWrite(db.vcs, vcId, after.vcs[vcId], email);
  }

  /** Issuing a partner credential again for the same email and program: when
      the second write is accepted it leaves one record, the second one (the
      first is overwritten, not kept beside it); when the store refuses the
      second write and accepted the first, the first record stays as it was.
      Each issuance is given its own refusals, `r1` and `r2`. */
  lemma PartnerReissueOverwrites(db: Db, r1: set<Path>, r2: set<Path>, email: string, d1: PartnerVcData, t1: Instant, d2: PartnerVcData, t2: Instant)
    requires d1.id == d2.id
    ensures var e1 := IssuePartnerVc(db, r1, email, d1, t1);
      var e2 := IssuePartnerVc(e1.db, r2, email, d2, t2);
      var p := Path(Vcs, PartnerVcId(email, d2));
      && (p !in r2 ==> e2 == IssuePartnerVc(db, r2, email, d2, t2))
      && (p in r2 ==> e2 == Effect(Err(Unavailable(p)), e1.db))
      && (p in r2 && p !in r1 ==> e2.db.vcs[p.id] == VcRecord(email, Partner, d1.ToDoc(), t1))
  {
  }

  /** The Credential ledger over the shared Firestore handle. */
  class VcsService {
    const firestore: Firestore

    constructor (firestore: Firestore)
      ensures this.firestore == firestore
    {
      this.firestore := firestore;
    }

    method CreateOrUpdateUserVC(email: string, userData: Doc, now: Instant) returns (r: Outcome)
      modifies firestore
      ensures Effect(r, firestore.State()) == IssueUserVc(old(firestore.State()), firestore.rejected, email, userData, now)
    {
      var vcId := GenerateVcId(User, email, None);
      r := firestore.SetMerge(Path(Vcs, vcId), VcRecord(email, User, userData, now));
    }

    method CreatePartnerVC(email: string, programData: PartnerVcData, now: Instant) returns (r: Outcome)
      modifies firestore
      ensures Effect(r, firestore.State()) == IssuePartnerVc(old(firestore.State()), firestore.rejected, email, programData, now)
    {
      var vcId := GenerateVcId(Partner, email, Some(programData.id));
      r := firestore.Set(Path(Vcs, vcId), VcRecord(email, Partner, programData.ToDoc(), now));
    }

    method CreateEventVC(email: string, reservationData: EventVcData, now: Instant) returns (r: Outcome)
      modifies firestore
      ensures Effect(r, firestore.State()) == IssueEventVc(old(firestore.State()), firestore.rejected, email, reservationData, now)
    {
      var vcId := GenerateVcId(Event, email, Some(reservationData.reservationId));
      r := firestore.Set(Path(Vcs, vcId), VcRecord(email, Event, reservationData.ToDoc(), now));
    }

    /** The pending credentials of `email`, by document id. */
    method GetPendingVCsByEmail(email: string) returns (r: Query)
      ensures Vcs in firestore.unreadable ==> r == Refused(QueryRefused(Vcs))
      ensures r.Refused? <==>
        || Vcs in firestore.unreadable
        || exists id :: id in firestore.vcs && PendingFor(firestore.vcs[id], email) && !Stamped(firestore.vcs[id])
      ensures r.Found? ==>
        && (forall id :: id in r.records <==> id in firestore.vcs && PendingFor(firestore.vcs[id], email))
        && (forall id :: id in r.records ==> r.records[id] == firestore.vcs[id])
    {
      r := PendingQuery(firestore.vcs, firestore.unreadable, email);
    }

    method ActivateVC(vcId: string) returns (r: Outcome)
      modifies firestore
      ensures Effect(r, firestore.State()) == SetStatus(old(firestore.State()), firestore.rejected, vcId, Active)
    {
      r := firestore.Update(Path(Vcs, vcId), map["status" := Str(StatusName(Active))]);
    }

    method RevokeVC(vcId: string) returns (r: Outcome)
      modifies firestore
      ensures Effect(r, firestore.State()) == SetStatus(old(firestore.State()), firestore.rejected, vcId, Revoked)
    {
      r := firestore.Update(Path(Vcs, vcId), map["status" := Str(StatusName(Revoked))]);
    }
  }
}
