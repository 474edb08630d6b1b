/** The Program registry of src/programs/programs.service.ts: a merge-write of
    the program document, then one partner credential per listed partner, in
    list order, stopping at the first failed write. */
module ProgramRegistry {
  import opened Store
  import opened Ledger

  /** One entry of `partner_users`. */
  datatype PartnerUser = PartnerUser(email: string, role: string)

  /** The `program` part of the request, after validation. */
  datatype Program = Program(
    id: string,
    title: string,
    subTitle: string,
    number: Number,
    latitude: Number,
    longitude: Number,
    placeName: string,
    zip: string,
    prefecture: string,
    address: string,
    street: string)

  datatype CreateProgramDto = CreateProgramDto(program: Program, partnerUsers: seq<PartnerUser>)

  function PartnerUsersValue(partners: seq<PartnerUser>): Value {
    List(seq(|partners|, i requires 0 <= i < |partners| =>
      Obj(map["email" := Str(partners[i].email), "role" := Str(partners[i].role)])))
  }

  /** The fields the program write merges in: ten mapped fields, the partner list
      as given, and `updatedAt`. None of them is a map, so each replaces what was stored. */
  function ProgramDoc(dto: CreateProgramDto, now: Instant): Doc {
    map[
      "title" := Str(dto.program.title),
      "subTitle" := Str(dto.program.subTitle),
      "number" := Num(dto.program.number),
      "latitude" := Num(dto.program.latitude),
      "longitude" := Num(dto.program.longitude),
      "placeName" := Str(dto.program.placeName),
      "zip" := Str(dto.program.zip),
      "prefecture" := Str(dto.program.prefecture),
      "address" := Str(dto.program.address),
      "street" := Str(dto.program.street),
      "partnerUsers" := PartnerUsersValue(dto.partnerUsers),
      "updatedAt" := Time(now)
    ]
  }

  /** The partner credential payload for one entry, taken from the request. */
  function PartnerPayload(program: Program, partner: PartnerUser): PartnerVcData {
    PartnerVcData(program.id, program.title, partner.role, program.placeName, program.prefecture, program.address)
  }

  /** `partner_{email}_{program id}` (or `partner_{email}` for an empty id). */
  function PartnerKey(program: Program, email: string): string {
    GenerateVcId(Partner, email, Some(program.id))
  }

  function PartnerKeys(program: Program, partners: seq<PartnerUser>): set<string> {
    set p | p in partners :: PartnerKey(program, p.email)
  }

  function Emails(partners: seq<PartnerUser>): set<string> {
    set p | p in partners :: p.email
  }

  /** The role of the last entry for `email`, if any. */
  function LastRole(partners: seq<PartnerUser>, email: string): Option<string> {
    if partners == [] then None
    else if partners[|partners| - 1].email == email then Some(partners[|partners| - 1].role)
    else LastRole(partners[..|partners| - 1], email)
  }

  /** Issuing the partner credentials of `partners` one after another, stopping at
      the first failure. */
  function IssuePartners(db: Db, rejected: set<Path>, program: Program, partners: seq<PartnerUser>, now: Instant): Effect
    decreases |partners|
  {
    if partners == [] then Effect(Ok, db)
    else
      var e := IssuePartners(db, rejected, program, partners[..|partners| - 1], now);
      if e.outcome.Err? then e
      else
        var last := partners[|partners| - 1];
        IssuePartnerVc(e.db, rejected, last.email, PartnerPayload(program, last), now)
  }

  function CreateOrUpdateProgramSpec(db: Db, rejected: set<Path>, dto: CreateProgramDto, now: Instant): Effect {
    var e := MergeWrite(db, rejected, Path(Programs, dto.program.id), ProgramDoc(dto, now));
    if e.outcome.Err? then e else IssuePartners(e.db, rejected, dto.program, dto.partnerUsers, now)
  }

  /** Partner issuance writes only `vcs`, and only the partners' keys. */
  lemma {:induction false} IssuePartnersFrame(db: Db, rejected: set<Path>, program: Program, partners: seq<PartnerUser>, now: Instant)
    ensures var e := IssuePartners(db, rejected, program, partners, now);
      && e.db.users == db.users && e.db.programs == db.programs && e.db.reservations == db.reservations
      && e.db.vcs - PartnerKeys(program, partners) == db.vcs - PartnerKeys(program, partners)
      && db.vcs.Keys <= e.db.vcs.Keys
    decreases |partners|
  {
    if partners != [] {
      var init := partners[..|partners| - 1];
      var last := partners[|partners| - 1];
      IssuePartnersFrame(db, rejected, program, init, now);
      PartnersSnoc(program, partners);
      var e := IssuePartners(db, rejected, program, init, now);
      var e2 := IssuePartners(db, rejected, program, partners, now);
      FrameExtend(db.vcs, e.db.vcs, e2.db.vcs, PartnerKeys(program, init), PartnerKeys(program, partners),
                  PartnerKey(program, last.email));
    }
  }

  /** A table that differs from `d0` only on `k1`, written again at one `key`,
      differs from `d0` only on any `k` holding both. */
  lemma FrameExtend(d0: Table, d1: Table, d2: Table, k1: set<string>, k: set<string>, key: string)
    requires d1 - k1 == d0 - k1 && d0.Keys <= d1.Keys
    requires d2 - {key} == d1 - {key} && (key in d1 ==> key in d2)
    requires k1 <= k && key in k
    ensures d2 - k == d0 - k && d0.Keys <= d2.Keys
  {
    forall x | x !in k
      ensures (x in d2 <==> x in d0) && (x in d0 ==> d2[x] == d0[x])
    {
      assert x in d2 <==> x in d2 - {key};
      assert x in d1 <==> x in d1 - {key};
      assert x in d1 <==> x in d1 - k1;
      assert x in d0 <==> x in d0 - k1;
      if x in d0 {
        assert d2[x] == (d2 - {key})[x] == (d1 - {key})[x] == d1[x];
        assert d1[x] == (d1 - k1)[x] == (d0 - k1)[x] == d0[x];
      }
    }
    forall x | x in d0 ensures x in d2 {
      if x != key {
        assert x in d1 - {key};
      }
    }
  }

  /** Partner issuance succeeds exactly when no partner's credential is refused. */
  lemma {:induction false} IssuePartnersOutcome(db: Db, rejected: set<Path>, program: Program, partners: seq<PartnerUser>, now: Instant)
    ensures IssuePartners(db, rejected, program, partners, now).outcome.Ok? <==>
      forall p :: p in partners ==> Path(Vcs, PartnerKey(program, p.email)) !in rejected
    decreases |partners|
  {
    if partners != [] {
      var init := partners[..|partners| - 1];
      assert partners == init + [partners[|partners| - 1]];
      IssuePartnersOutcome(db, rejected, program, init, now);
    }
  }

  /** When no write is refused, issuance succeeds and adds exactly the
      partners' keys: one credential per key, however often it is listed. */
  lemma {:induction false} IssuePartnersKeys(db: Db, rejected: set<Path>, program: Program, partners: seq<PartnerUser>, now: Instant)
    requires forall p :: p in partners ==> Path(Vcs, PartnerKey(program, p.email)) !in rejected
    ensures var e := IssuePartners(db, rejected, program, partners, now);
      && e.outcome.Ok?
      && e.db.vcs.Keys == db.vcs.Keys + PartnerKeys(program, partners)
    decreases |partners|
  {
    if partners != [] {
      var init := partners[..|partners| - 1];
      var last := partners[|partners| - 1];
      assert forall p :: p in init ==> p in partners;
      IssuePartnersKeys(db, rejected, program, init, now);
      PartnersSnoc(program, partners);
      var e := IssuePartners(db, rejected, program, init, now);
      var e2 := IssuePartners(db, rejected, program, partners, now);
      assert e2 == IssuePartnerVc(e.db, rejected, last.email, PartnerPayload(program, last), now);
      KeysGrow(db.vcs.Keys, e.db.vcs, e2.db.vcs, PartnerKey(program, last.email),
               PartnerKeys(program, init), PartnerKeys(program, partners));
    }
  }

  /** A table that gains one key `k` over `base + s0` is over `base + s0 + {k}`. */
  lemma KeysGrow(base: set<string>, t0: Table, t1: Table, k: string, s0: set<string>, s1: set<string>)
    requires t0.Keys == base + s0
    requires t1 - {k} == t0 - {k} && k in t1
    requires s1 == s0 + {k}
    ensures t1.Keys == base + s1
  {
    forall x
      ensures x in t1 <==> x in base + s1
    {
      if x != k {
        assert x in t1 <==> x in t1 - {k};
        assert x in t0 <==> x in t0 - {k};
      }
    }
  }

  /** When no write is refused, every listed partner's credential holds the
      request's program fields and the role of that email's LAST occurrence in
      the list. */
  lemma {:induction false} IssuePartnersContents(db: Db, rejected: set<Path>, program: Program, partners: seq<PartnerUser>, now: Instant)
    requires forall p :: p in partners ==> Path(Vcs, PartnerKey(program, p.email)) !in rejected
    ensures var e := IssuePartners(db, rejected, program, partners, now);
      forall p :: p in partners ==>
        && LastRole(partners, p.email).Some?
        && PartnerKey(program, p.email) in e.db.vcs
        && e.db.vcs[PartnerKey(program, p.email)] ==
             VcRecord(p.email, Partner, PartnerPayload(program, PartnerUser(p.email, LastRole(partners, p.email).value)).ToDoc(), now)
    decreases |partners|
  {
    if partners != [] {
      var init := partners[..|partners| - 1];
      var last := partners[|partners| - 1];
      assert partners == init + [last];
      IssuePartnersContents(db, rejected, program, init, now);
      IssuePartnersOutcome(db, rejected, program, init, now);
      var e := IssuePartners(db, rejected, program, init, now);
      var e2 := IssuePartners(db, rejected, program, partners, now);
      assert e2 == IssuePartnerVc(e.db, rejected, last.email, PartnerPayload(program, last), now);
      WrittenAt(e.db.vcs, e2.db.vcs, PartnerKey(program, last.email));
      forall p | p in partners
        ensures LastRole(partners, p.email).Some?
        ensures PartnerKey(program, p.email) in e2.db.vcs
        ensures e2.db.vcs[PartnerKey(program, p.email)] ==
          VcRecord(p.email, Partner, PartnerPayload(program, PartnerUser(p.email, LastRole(partners, p.email).value)).ToDoc(), now)
      {
        if p.email == last.email {
          assert LastRole(partners, p.email) == Some(last.role);
        } else {
          assert p in init;
          assert LastRole(partners, p.email) == LastRole(init, p.email);
          if PartnerKey(program, p.email) == PartnerKey(program, last.email) {
            VcIdDeterminesEmail(Partner, p.email, Partner, last.email, Some(program.id));
          }
        }
      }
    }
  }

  lemma PartnersSnoc(program: Program, partners: seq<PartnerUser>)
    requires partners != []
    ensures var init := partners[..|partners| - 1];
      var last := partners[|partners| - 1];
      && PartnerKeys(program, partners) == PartnerKeys(program, init) + {PartnerKey(program, last.email)}
      && Emails(partners) == Emails(init) + {last.email}
  {
    var init := partners[..|partners| - 1];
    var last := partners[|partners| - 1];
    assert partners == init + [last];
    assert forall p :: p in partners <==> p in init || p == last;
  }

  /** Distinct keys <-> distinct emails: one credential per partner email, however
      often the email is listed. */
  lemma {:induction false} PartnerKeysCount(program: Program, partners: seq<PartnerUser>)
    ensures |PartnerKeys(program, partners)| == |Emails(partners)|
    decreases |partners|
  {
    if partners != [] {
      var init := partners[..|partners| - 1];
      var last := partners[|partners| - 1];
      var key := PartnerKey(program, last.email);
      PartnerKeysCount(program, init);
      PartnersSnoc(program, partners);
      assert key in PartnerKeys(program, init) <==> last.email in Emails(init) by {
        if key in PartnerKeys(program, init) {
          var p :| p in init && PartnerKey(program, p.email) == key;
          VcIdDeterminesEmail(Partner, p.email, Partner, last.email, Some(program.id));
        }
        if last.email in Emails(init) {
          var p :| p in init && p.email == last.email;
        }
      }
    }
  }

  /** Once a prefix of the list fails, the rest of the list is not issued. */
  lemma {:induction false} IssuePartnersErrSticky(db: Db, rejected: set<Path>, program: Program, partners: seq<PartnerUser>, now: Instant, k: nat)
    requires k <= |partners|
    requires IssuePartners(db, rejected, program, partners[..k], now).outcome.Err?
    ensures IssuePartners(db, rejected, program, partners, now) == IssuePartners(db, rejected, program, partners[..k], now)
    decreases |partners| - k
  {
    if k < |partners| {
      var init := partners[..|partners| - 1];
      assert init[..k] == partners[..k];
      IssuePartnersErrSticky(db, rejected, program, init, now, k);
    } else {
      assert partners[..k] == partners;
    }
  }

  /** On a refused partner write, the partners before it keep their new
      credentials, the refused one and those after it get none. */
  lemma {:induction false} IssuePartnersStopsAtFailure(db: Db, rejected: set<Path>, program: Program, partners: seq<PartnerUser>, now: Instant, j: nat)
    requires j < |partners|
    requires Path(Vcs, PartnerKey(program, partners[j].email)) in rejected
    requires forall i :: 0 <= i < j ==> Path(Vcs, PartnerKey(program, partners[i].email)) !in rejected
    ensures IssuePartners(db, rejected, program, partners, now) ==
      Effect(Err(Unavailable(Path(Vcs, PartnerKey(program, partners[j].email)))),
             IssuePartners(db, rejected, program, partners[..j], now).db)
    decreases |partners|
  {
    var init := partners[..|partners| - 1];
    var last := partners[|partners| - 1];
    if j == |partners| - 1 {
      assert init == partners[..j];
      forall p | p in init
        ensures Path(Vcs, PartnerKey(program, p.email)) !in rejected
      {
        var i :| 0 <= i < |init| && init[i] == p;
      }
      IssuePartnersKeys(db, rejected, program, init, now);
    } else {
      assert init[j] == partners[j];
      assert init[..j] == partners[..j];
      IssuePartnersStopsAtFailure(db, rejected, program, init, now, j);
    }
  }

  /** A refused program write ends the call: nothing at all is written and no
      partner credential is issued. */
  lemma ProgramWriteRefused(db: Db, rejected: set<Path>, dto: CreateProgramDto, now: Instant)
    requires Path(Programs, dto.program.id) in rejected
    ensures CreateOrUpdateProgramSpec(db, rejected, dto, now) == Effect(Err(Unavailable(Path(Programs, dto.program.id))), db)
  {
  }

  /** A program write that goes through overwrites the written fields (the
      partner list replaced, not unioned) and keeps the stored fields the
      request does not mention; no other program changes. */
  lemma ProgramDocumentWritten(db: Db, rejected: set<Path>, dto: CreateProgramDto, now: Instant)
    requires Path(Programs, dto.program.id) !in rejected
    ensures var e := CreateOrUpdateProgramSpec(db, rejected, dto, now);
      var before := if dto.program.id in db.programs then db.programs[dto.program.id] else map[];
      && e.db.programs == db.programs[dto.program.id := before + ProgramDoc(dto, now)]
      && e.db.programs[dto.program.id]["partnerUsers"] == PartnerUsersValue(dto.partnerUsers)
  {
    var before := if dto.program.id in db.programs then db.programs[dto.program.id] else map[];
    ProgramWriteKeepsVcs(db, rejected, dto, now);
    var m := MergeWrite(db, rejected, Path(Programs, dto.program.id), ProgramDoc(dto, now));
    IssuePartnersFrame(m.db, rejected, dto.program, dto.partnerUsers, now);
    MergeFlat(before, ProgramDoc(dto, now));
  }

  /** Whatever happens, users and reservations are untouched and in `vcs` only
      the listed partners' keys can change: an empty list changes nothing there. */
  lemma ProgramCallFrame(db: Db, rejected: set<Path>, dto: CreateProgramDto, now: Instant)
    ensures var e := CreateOrUpdateProgramSpec(db, rejected, dto, now);
      && e.db.users == db.users && e.db.reservations == db.reservations
      && e.db.vcs - PartnerKeys(dto.program, dto.partnerUsers) == db.vcs - PartnerKeys(dto.program, dto.partnerUsers)
      && (dto.partnerUsers == [] ==> e.db.vcs == db.vcs)
  {
    ProgramWriteKeepsVcs(db, rejected, dto, now);
    var m := MergeWrite(db, rejected, Path(Programs, dto.program.id), ProgramDoc(dto, now));
    IssuePartnersFrame(m.db, rejected, dto.program, dto.partnerUsers, now);
  }

  /** Issuing to a list none of whose writes is refused adds exactly the
      partners' keys, each holding a fresh pending credential for that partner. */
  lemma IssuePartnersIssued(db: Db, rejected: set<Path>, program: Program, partners: seq<PartnerUser>, now: Instant)
    requires forall p :: p in partners ==> Path(Vcs, PartnerKey(program, p.email)) !in rejected
    ensures var e := IssuePartners(db, rejected, program, partners, now);
      && e.outcome.Ok?
      && e.db.vcs.Keys == db.vcs.Keys + PartnerKeys(program, partners)
      && forall p :: p in partners ==>
           && PartnerKey(program, p.email) in e.db.vcs
           && IssuedTo(e.db.vcs[PartnerKey(program, p.email)], p.email, Partner, now)
  {
    IssuePartnersKeys(db, rejected, program, partners, now);
    IssuePartnersContents(db, rejected, program, partners, now);
    var e := IssuePartners(db, rejected, program, partners, now);
    forall p | p in partners
      ensures PartnerKey(program, p.email) in e.db.vcs
      ensures IssuedTo(e.db.vcs[PartnerKey(program, p.email)], p.email, Partner, now)
    {
      assert PartnerKey(program, p.email) in PartnerKeys(program, partners);
      var role := LastRole(partners, p.email).value;
      VcRecordIssued(p.email, Partner, PartnerPayload(program, PartnerUser(p.email, role)).ToDoc(), now);
    }
  }

  /** A call with no refused write adds exactly the partners' keys to `vcs`,
      each holding a fresh pending credential for that partner. */
  lemma ProgramCreateIssues(db: Db, rejected: set<Path>, dto: CreateProgramDto, now: Instant)
    requires Path(Programs, dto.program.id) !in rejected
    requires forall p :: p in dto.partnerUsers ==> Path(Vcs, PartnerKey(dto.program, p.email)) !in rejected
    ensures var e := CreateOrUpdateProgramSpec(db, rejected, dto, now);
      && e.outcome.Ok?
      && e.db.vcs.Keys == db.vcs.Keys + PartnerKeys(dto.program, dto.partnerUsers)
      && forall p :: p in dto.partnerUsers ==>
           && PartnerKey(dto.program, p.email) in e.db.vcs
           && IssuedTo(e.db.vcs[PartnerKey(dto.program, p.email)], p.email, Partner, now)
  {
    ProgramWriteKeepsVcs(db, rejected, dto, now);
    var m := MergeWrite(db, rejected, Path(Programs, dto.program.id), ProgramDoc(dto, now));
    IssuePartnersIssued(m.db, rejected, dto.program, dto.partnerUsers, now);
  }

  /** Creating the same program again re-announces every partner: each partner
      credential is the single record under its key, pending again, with the
      second call's time; no new credential appears. */
  lemma ProgramReannounce(db: Db, rejected: set<Path>, dto: CreateProgramDto, t1: Instant, t2: Instant)
    requires Path(Programs, dto.program.id) !in rejected
    requires forall p :: p in dto.partnerUsers ==> Path(Vcs, PartnerKey(dto.program, p.email)) !in rejected
    ensures var e1 := CreateOrUpdateProgramSpec(db, rejected, dto, t1);
      var e2 := CreateOrUpdateProgramSpec(e1.db, rejected, dto, t2);
      && e1.outcome.Ok? && e2.outcome.Ok?
      && e2.db.vcs.Keys == e1.db.vcs.Keys
      && forall p :: p in dto.partnerUsers ==>
           && PartnerKey(dto.program, p.email) in e2.db.vcs
           && IssuedTo(e2.db.vcs[PartnerKey(dto.program, p.email)], p.email, Partner, t2)
  {
    ProgramCreateIssues(db, rejected, dto, t1);
    var e1 := CreateOrUpdateProgramSpec(db, rejected, dto, t1);
    ProgramCreateIssues(e1.db, rejected, dto, t2);
  }

  /** The program write touches only `programs`. */
  lemma ProgramWriteKeepsVcs(db: Db, rejected: set<Path>, dto: CreateProgramDto, now: Instant)
    ensures var m := MergeWrite(db, rejected, Path(Programs, dto.program.id), ProgramDoc(dto, now));
      && (m.outcome.Ok? <==> Path(Programs, dto.program.id) !in rejected)
      && m.db.vcs == db.vcs && m.db.users == db.users && m.db.reservations == db.reservations
      && CreateOrUpdateProgramSpec(db, rejected, dto, now) ==
           if m.outcome.Err? then m else IssuePartners(m.db, rejected, dto.program, dto.partnerUsers, now)
  {
  }

  /** ProgramsService over the shared Firestore handle and the credential ledger. */
  class ProgramsService {
    const firestore: Firestore
    const vcsService: VcsService

    constructor (firestore: Firestore, vcsService: VcsService)
      requires vcsService.firestore == firestore
      ensures this.firestore == firestore && this.vcsService == vcsService
      ensures Valid()
    {
      this.firestore := firestore;
      this.vcsService := vcsService;
    }

    /** Both services write through the same store. */
    predicate Valid() {
      vcsService.firestore == firestore
    }

    method CreateOrUpdateProgram(dto: CreateProgramDto, now: Instant) returns (r: Outcome)
      requires Valid()
      modifies firestore
      ensures Effect(r, firestore.State()) == CreateOrUpdateProgramSpec(old(firestore.State()), firestore.rejected, dto, now)
    {
      var data := ProgramDoc(dto, now);
      r := firestore.SetMerge(Path(Programs, dto.program.id), data);
      if r.Err? {
        return;
      }
      ghost var afterProgram := firestore.State();
      var partners := dto.partnerUsers;
      var i := 0;
      while i < |partners|
        invariant 0 <= i <= |partners|
        invariant r == Ok
        invariant Effect(Ok, firestore.State()) == IssuePartners(afterProgram, firestore.rejected, dto.program, partners[..i], now)
      {
        var partner := partners[i];
        r := vcsService.CreatePartnerVC(partner.email, PartnerPayload(dto.program, partner), now);
        assert partners[..i + 1][..i] == partners[..i];
        if r.Err? {
          IssuePartnersErrSticky(afterProgram, firestore.rejected, dto.program, partners, now, i + 1);
          return;
        }
        i := i + 1;
      }
      assert partners[..i] == partners;
    }
  }
}
