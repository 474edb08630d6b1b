# Onpaku API: credential bookkeeping in Dafny

This project models the verifiable-credential (VC) bookkeeping of the Onpaku
backend (a NestJS service over Firestore). Users register, programs are put
on file with their partner organisers, and users book sessions. Each of those
steps leaves a record in the `vcs` collection. That record is a credential
addressed to one email, and it starts out *pending*. Its id is derived
deterministically from the credential type, the email and an optional extra
id, and that derivation is the only thing that prevents duplicates.

The model is split into these modules:

- **Store** (`store.dfy`) holds the database: four collections of documents
  keyed by string (`users`, `programs`, `reservations`, `vcs`). It also holds
  the three Firestore writes the services use:
  - `set` replaces the document.
  - `set` with `{merge: true}` merges fields into it.
  - `update` requires the document to exist and overwrites only the given
    top-level fields.

  Each write is a pure function from a database to an `Effect` (an outcome
  and the new database). The class `Firestore` holds that database in
  fields, and its methods are proved equal to those functions. Any refusal by
  the store (network, permission) stands for the constant set `rejected` of
  document paths whose writes fail, and for the constant set `unreadable` of
  collections whose queries fail. Both sets are fixed for one store
  handle; the lemmas that compose two service calls may give each call its
  own set.
- **Ledger** (`ledger.dfy`, `src/vcs/vcs.service.ts`) covers:
  - the id derivation;
  - the merge-upsert of the user credential;
  - the full-replace partner and event credentials;
  - the pending-credentials query;
  - activation and revocation.
- **UserDirectory**, **ProgramRegistry** and **ReservationIntake**
  (`user_directory.dfy`, `program_registry.dfy`, `reservation_intake.dfy`) are
  the three services. Each first writes its own document, then calls the
  ledger, and stops at the first failed write. Each service class holds the
  shared `Firestore` handle and the `VcsService`. Each method is proved equal
  to a pure specification function, and the properties are lemmas about that
  function.
- **ApiKeyGuard** (`api_key_guard.dfy`) is the pure `Authorization: Bearer <key>`
  check. It includes JavaScript's `split(' ')`.
- **Workflow** (`workflow.dfy`) covers one user who registers, is listed as
  the only partner of a program, and books a session. On a store that
  refuses no write, and with no pending credentials for that email at the
  start, that user ends with exactly three pending credentials, one of each
  type.

Some inputs are parameters instead of effects:
- The current time (`new Date()`) is a parameter `now`.
- `new Date(string)` is an uninterpreted function `toDate: string -> Instant`.
- JavaScript numbers are kept as 64-bit patterns (`bv64`), because the
  services only copy them.

JavaScript truthiness (`if (dto.family_name)`, `additionalId ? … : …`) is
`Truthy`: present and not the empty string.

Some choices follow the code or the Firestore client where a plain reading
would differ:

- **Deep merge.** `set(..., {merge: true})` is modelled as Firestore's deep
  merge: a written non-empty map is merged key by key into a stored map, and
  anything else replaces the stored value. The program write holds no map
  values, so it is a plain field overwrite (`Store.MergeFlat`). The user
  credential's `vcData` is a map, so re-announcing a user after an update
  keeps the payload fields the update did not send, such as `birthYear`.
- **No NotFound check.** `updateUser` has no existence check of its own.
  The only "not found" is Firestore's `update` of a missing document. That
  failure happens before any credential is issued.
- **Empty updates fail.** If `updateUser` supplies no name and no program
  list, its `update` call carries no fields. The Firestore client refuses
  such a call ("At least one field must be updated"), so the call fails and
  no credential is issued (`NoFieldsToUpdate`).
- **The partner list is replaced.** `createOrUpdateProgram` always replaces
  the stored partner list and re-announces every listed partner. It
  computes no diff.
- **The booking user is given by email.** The reservation document is keyed
  by `reservation_id`; the request's `email` field names the booking user,
  which the reservation stores as `userEmail` and the event credential's id
  includes. This follows the service; the request type
  `src/reservations/dto/create-reservation.dto.ts` declares `user_id`
  instead.
- **Two statuses are missing from the enum.** `VCStatus` in
  `src/vcs/dto/vc-data.dto.ts:17-22` does not declare `Active` or `Revoked`,
  yet `activateVC` and `revokeVC` (`src/vcs/vcs.service.ts:81,86`) refer to
  them. As written the file does not type-check, and compiled without type
  checking both names evaluate to `undefined`, never to a status string.
  The model's `VCStatus` has all six values and writes `active` and
  `revoked`; those two strings are an assumption about the intent, not what
  the source as written stores.

## Model

| member | source | states |
|---|---|---|
| Store.MergeDoc | src/vcs/vcs.service.ts:23-32 | a merge keeps every stored field not written, takes written fields that were absent, and merges written fields that were present; the key set is the union |
| Store.MergeIntoNothing | src/vcs/vcs.service.ts:23-32 | merging into a missing document writes exactly the given fields, as a plain set would |
| Store.MergeValueIdempotent | src/vcs/vcs.service.ts:23-32 | repeating a merge of the same value changes nothing |
| Store.MergeDocIdempotent | src/vcs/vcs.service.ts:23-32 | repeating the same merge-write leaves the document as the first one left it |
| Store.MergeFlat | src/programs/programs.service.ts:19-35 | when no written value is a map, a merge-write is a plain overwrite of the written fields and keeps all others |
| Store.Firestore.Set | src/vcs/vcs.service.ts:39-45 | `set` either is refused and changes nothing, or replaces exactly that one document |
| Store.Firestore.SetMerge | src/vcs/vcs.service.ts:23-32 | `set` with merge either is refused and changes nothing, or merges into exactly that one document, creating it if needed |
| Store.Firestore.Update | src/vcs/vcs.service.ts:80-81 | `update` fails with no write on an empty field map, a refusal or a missing document, and otherwise overwrites only the given fields of that document |
| Ledger.VcIdTypesDisjoint | src/vcs/vcs.service.ts:14-16 | ids of different credential types never coincide, whatever the email and extra id |
| Ledger.VcIdDeterminesEmail | src/vcs/vcs.service.ts:14-16 | with the same extra id, equal derived ids have the same type and the same email |
| Ledger.VcIdUnambiguous | src/vcs/vcs.service.ts:14-16 | for emails without `_`, an id determines its type, its email and its extra id, where a missing extra id and an empty one count as the same |
| Ledger.VcIdCollision | src/vcs/vcs.service.ts:14-16 | without that restriction, two different (email, program id) pairs can derive the same partner id, because nothing is escaped |
| Ledger.IssueUserVc | src/vcs/vcs.service.ts:19-33 | the user credential write fails exactly when it is refused, changes nothing when it fails, and touches only the id `user_{email}` in `vcs` |
| Ledger.UserVcRecord | src/vcs/vcs.service.ts:19-33 | after the merge the record is `user`, pending, for that email, and timed now; its payload is merged into the stored one; stored fields not written survive; a new record holds exactly the five written fields |
| Ledger.MergedRecord | src/vcs/vcs.service.ts:23-32 | a credential merged over a stored one has the written scalar fields, the merged payload and the other stored fields |
| Ledger.IssuePartnerVc | src/vcs/vcs.service.ts:35-46 | the partner credential fails only when refused; otherwise it replaces `partner_{email}_{id}` with exactly the five written fields and touches nothing else |
| Ledger.IssueEventVc | src/vcs/vcs.service.ts:48-63 | the event credential fails only when refused; otherwise it replaces `event_{email}_{reservation id}` with exactly the five written fields and touches nothing else |
| Ledger.SetStatus | src/vcs/vcs.service.ts:79-87 | a status change fails on a refused write or a missing id and writes nothing then; otherwise only `status` of that one record changes |
| Ledger.IssuanceCount | src/vcs/vcs.service.ts:20-21 | an issuance adds exactly one credential when the id was new and none when it existed |
| Ledger.PendingAfterWrite | src/vcs/vcs.service.ts:65-77 | writing one record adds it to an email's pending view when it is pending for that email, and otherwise removes that id from the view |
| Ledger.IssuedVcIsPending | src/vcs/vcs.service.ts:65-77 | after an issuance the subject's pending view gains that credential, and every other email's view only loses that id |
| Ledger.StatusChangeLeavesPending | src/vcs/vcs.service.ts:79-87 | activating or revoking removes the credential from every pending view and keeps the others |
| Ledger.PartnerReissueOverwrites | src/vcs/vcs.service.ts:35-46 | issuing a partner credential twice for the same email and program: if the second write is not refused, the result is exactly what the second issuance alone leaves (one record, the second payload); if it is refused, the call fails with `Unavailable` and the database is as the first issuance left it, so a first record that was written stays unchanged |
| Ledger.VcsService.CreateOrUpdateUserVC | src/vcs/vcs.service.ts:19-33 | the method's effect on the store is the user credential merge-write |
| Ledger.VcsService.CreatePartnerVC | src/vcs/vcs.service.ts:35-46 | the method's effect on the store is the partner credential replacement |
| Ledger.VcsService.CreateEventVC | src/vcs/vcs.service.ts:48-63 | the method's effect on the store is the event credential replacement |
| Ledger.PendingQuery | src/vcs/vcs.service.ts:65-77 | the query fails exactly when the store refuses it or a matching record's `issuedAt` is not a Timestamp; otherwise it returns exactly the records whose `userEmail` is the email and whose `status` is pending, each unchanged, and none when there are none |
| Ledger.QueryAfterIssue | src/vcs/vcs.service.ts:65-77 | after an issuance to an email, a readable ledger whose pending records for it were stamped answers with those records plus the new credential |
| Ledger.VcsService.GetPendingVCsByEmail | src/vcs/vcs.service.ts:65-77 | a refused query fails with that error; the query fails exactly when refused or when a matching record lacks a Timestamp `issuedAt`; otherwise it returns exactly the pending records of the email, unchanged |
| Ledger.VcsService.ActivateVC | src/vcs/vcs.service.ts:79-82 | the method's effect is the status update to `active` |
| Ledger.VcsService.RevokeVC | src/vcs/vcs.service.ts:84-87 | the method's effect is the status update to `revoked` |
| UserDirectory.UpdateData | src/users/users.service.ts:56-61 | the update holds `familyName` and `firstName` exactly when supplied and not empty, and `managementPrograms` exactly when supplied; it holds nothing else, and each field has the supplied value |
| UserDirectory.UpdateVcPayload | src/users/users.service.ts:66-70 | the re-announced payload is `id` plus exactly the supplied non-empty names, never the program list |
| UserDirectory.UserDocMatchesCredential | src/users/users.service.ts:20-47 | the credential's `id` is the stored `onpakuUserId`, its other nine fields equal the stored ones, and a request without programs stores an empty list |
| UserDirectory.UserDocFields | src/users/users.service.ts:20-47 | the stored user has the credential's fields, with `id` stored as `onpakuUserId`, plus `managementPrograms` and `createdAt`, which the credential lacks |
| UserDirectory.CreateUserEffect | src/users/users.service.ts:14-48 | a refused user write changes nothing and issues no credential; otherwise the user document is replaced; the call succeeds exactly when neither write is refused; a refused credential write leaves the user written and `vcs` unchanged; only `user_{email}` changes in `vcs`, and it is pending for that email |
| UserDirectory.UpdateUserFailure | src/users/users.service.ts:50-72 | an empty update, a refused user write or a missing user fails before any write and issues no credential; the call succeeds exactly when there is something to write, the user exists and no write is refused |
| UserDirectory.UpdateUserSuccess | src/users/users.service.ts:56-71 | a successful update overwrites only the supplied fields of that user, replaces the program list as a whole, and re-announces the user credential as pending, its `vcData` the stored one deep-merged with the new payload (or the new payload alone when none was stored) |
| UserDirectory.UsersService.CreateUser | src/users/users.service.ts:14-48 | the method's effect is the user write followed, when it succeeds, by the user credential write |
| UserDirectory.UsersService.UpdateUser | src/users/users.service.ts:50-72 | the update data and the credential payload built field by field are the specified ones, and the effect is the update followed, when it succeeds, by the credential write |
| ProgramRegistry.IssuePartnersFrame | src/programs/programs.service.ts:38-47 | issuing to the partner list changes only the listed partners' keys in `vcs` and no other collection |
| ProgramRegistry.IssuePartnersOutcome | src/programs/programs.service.ts:38-47 | issuance succeeds exactly when no listed partner's credential write is refused |
| ProgramRegistry.IssuePartnersKeys | src/programs/programs.service.ts:38-47 | with no refused write, issuance adds exactly the listed partners' keys to `vcs` |
| ProgramRegistry.IssuePartnersContents | src/programs/programs.service.ts:38-47 | each listed partner's credential holds the request's program fields and the role of that email's last entry in the list |
| ProgramRegistry.IssuePartnersIssued | src/programs/programs.service.ts:38-47 | with no refused write, every listed partner holds a pending partner credential and the keys added are exactly theirs |
| ProgramRegistry.PartnerKeysCount | src/programs/programs.service.ts:38-47 | there are as many partner keys as distinct partner emails: an email listed twice yields one credential |
| ProgramRegistry.IssuePartnersErrSticky | src/programs/programs.service.ts:38-47 | once a prefix of the list fails, the rest of the list is not issued |
| ProgramRegistry.IssuePartnersStopsAtFailure | src/programs/programs.service.ts:38-47 | a refused partner fails the call with its own error, keeps the earlier partners' credentials and issues none after it |
| ProgramRegistry.ProgramWriteRefused | src/programs/programs.service.ts:19-38 | a refused program write fails the call and leaves the whole store unchanged, so no partner credential is written |
| ProgramRegistry.ProgramDocumentWritten | src/programs/programs.service.ts:19-35 | an accepted program write overwrites the twelve written fields, keeps all the other stored fields, changes no other program, and stores exactly the supplied partner list |
| ProgramRegistry.ProgramCallFrame | src/programs/programs.service.ts:13-48 | a call never touches `users` or `reservations`, changes in `vcs` only the listed partners' keys, and with an empty partner list changes nothing in `vcs` |
| ProgramRegistry.ProgramWriteKeepsVcs | src/programs/programs.service.ts:19-35 | the program write succeeds exactly when not refused and touches only `programs` |
| ProgramRegistry.ProgramCreateIssues | src/programs/programs.service.ts:13-48 | a call with no refused write succeeds, adds exactly the partners' keys and leaves each partner a pending credential |
| ProgramRegistry.ProgramReannounce | src/programs/programs.service.ts:13-48 | repeating the same call adds no credential, and every partner's credential is pending again with the second call's time |
| ProgramRegistry.ProgramsService.CreateOrUpdateProgram | src/programs/programs.service.ts:13-48 | the merge-write and then the loop's partner issuances, in list order, stopping at the first failure, have exactly the specified effect |
| ReservationIntake.CreateReservationEffect | src/reservations/reservations.service.ts:17-64 | a refused reservation write changes nothing; a refused credential write leaves the reservation written and `vcs` unchanged; otherwise the reservation and its event credential are placed; users and programs are never touched |
| ReservationIntake.ReservationMatchesCredential | src/reservations/reservations.service.ts:27-49 | the reservation holds exactly its eight fields and the payload exactly its five; they agree on program and price; the payload's time strings are the ones the stored instants were parsed from |
| ReservationIntake.ReservationPending | src/reservations/reservations.service.ts:43-49 | a booking adds exactly the event credential to the booker's pending view; other emails' views only lose that id |
| ReservationIntake.ReservationRebook | src/reservations/reservations.service.ts:22-49 | booking again under the same reservation id and email adds no reservation and no credential, and both hold the second request |
| ReservationIntake.ReservationsService.CreateReservation | src/reservations/reservations.service.ts:17-64 | the method's effect is the reservation write followed, when it succeeds, by the event credential; any failure is returned as-is |
| ApiKeyGuard.Split | src/shared/guards/api-key.guard.ts:23 | splitting yields at least one piece and no piece contains the separator |
| ApiKeyGuard.JoinSplit | src/shared/guards/api-key.guard.ts:23 | joining the pieces gives back the header |
| ApiKeyGuard.SplitJoin | src/shared/guards/api-key.guard.ts:23 | splitting a join of separator-free pieces gives back the pieces |
| ApiKeyGuard.CanActivate | src/shared/guards/api-key.guard.ts:14-38 | a server error happens only without a configured key; a request passes only when a header and a key are both present |
| ApiKeyGuard.AllowIff | src/shared/guards/api-key.guard.ts:23-37 | a request passes exactly when the header is `Bearer `, then the key, then the end or a space; the key is non-empty and has no space |
| ApiKeyGuard.AllowedIsBearer | src/shared/guards/api-key.guard.ts:23-37 | a request that passes has a `Bearer <key>` header |
| ApiKeyGuard.BearerIsAllowed | src/shared/guards/api-key.guard.ts:23-37 | a `Bearer <key>` header passes, whatever follows the next space |
| ApiKeyGuard.SchemeIff | src/shared/guards/api-key.guard.ts:23-26 | the first piece is `Bearer` exactly when the header is `Bearer` alone or starts with `Bearer ` |
| ApiKeyGuard.Refusals | src/shared/guards/api-key.guard.ts:18-35 | each refusal message arises exactly in its case and in the source's order: header, format, then configuration, then token |
| ApiKeyGuard.BareSchemeRefused | src/shared/guards/api-key.guard.ts:33-35 | a header of just `Bearer` has no token and is refused as an invalid key |
| Workflow.UserStage | src/users/users.service.ts:36-47 | a registration with no refused write adds the user credential to the user's pending ids |
| Workflow.ProgramStage | src/programs/programs.service.ts:38-47 | a program that lists only that email as partner adds its partner credential to the email's pending ids |
| Workflow.BookingStage | src/reservations/reservations.service.ts:43-49 | a booking with no refused write adds the event credential to the booker's pending ids |
| Workflow.Journey | src/vcs/vcs.service.ts:65-77 | register, be a program's only partner, book: on a store that refuses no write and with nothing pending for the email at the start, the email ends with exactly three pending credentials, one of each type |

## Left out

- Firestore initialisation, credentials and emulator wiring, the controllers,
  the request types' validation decorators, the module files and the logger:
  these are setup, routing, validation and I/O, and hold no bookkeeping logic.
- Refusals within one call: the set `rejected` is fixed, so a path the
  store refuses is refused for every write to it during one service call.
  Two cases are not modelled: a partner re-issue that fails after an earlier
  write to the same path succeeded within one call, and, in
  `createOrUpdateProgram` (src/programs/programs.service.ts:38-47), a
  partner email listed twice in `partner_users` whose later write fails
  after the earlier one landed. For such a list the requires of
  ProgramRegistry.IssuePartnersStopsAtFailure contradict each other. Across
  two calls, Ledger.PartnerReissueOverwrites gives each call its own set.
- Concurrency: each request is one sequential operation on the store. No other
  request interleaves with it, and no transaction is modelled.
- `new Date()` and `new Date(s)`: the current time is the parameter `now`
  and parsing is the parameter `toDate`. The source calls `new Date()` at
  each write (for example src/users/users.service.ts:32 and
  src/vcs/vcs.service.ts:29, and src/vcs/vcs.service.ts:44 once per partner),
  so those times can differ. The model simplifies this: one call uses a
  single `now` for `createdAt`/`updatedAt` and every `issuedAt` it writes.
- Ledger.VcsService.GetPendingVCsByEmail: returns the records by document
  id. The source returns a list of records in the store's order, and the
  model has no list order. A Timestamp's `toDate()` truncates to
  milliseconds; the timestamps this backend writes come from JavaScript
  Dates, which have millisecond precision, so for them the conversion keeps
  the instant and the model returns the stored value. Both failures
  are modelled: a refused query (`QueryRefused`) and a matching record
  whose `issuedAt` is missing or not a Timestamp (`MissingTimestamp`). The
  latter error does not say which record caused it.
- The user credential payload is typed `any`, and the model fixes it to
  the shape the services pass. Latitude, longitude, capacity and price are
  only copied as bit patterns, not as floating-point numbers.
- The error rethrow in `createReservation`
  (src/reservations/reservations.service.ts:54-63) is not modelled
  separately. Both branches rethrow the same error, so the model returns
  any failure as it came; the logging is left out.
- Validity of document ids: the model does not check whether an id is
  empty or contains `/`, which Firestore rejects. Such ids are treated like
  any other string.
- Operations that belong to other versions of the services and are not in
  the modelled files:
  - the enriched credential listing and `updateVcStatus`, which the
    controller calls;
  - `addPartnerUser`, `updateProgram` and the `find…` reads;
  - an existence check before `update`;
  - the `management_programs` diff on user update;
  - the reservation's user lookup and UTC+9 rendering.
