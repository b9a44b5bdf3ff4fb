/** `controllers/patientRecordController.js`: creating, reading, updating and deleting patient
    records. The collection is a map from record id to record; the database's own failures
    (validation, casts, the connection) are a `fails` flag. */
module RecordController {
  import opened Wrappers
  import opened Values
  import opened Tokens
  import Roles
  import RecordAccess

  /** The patient-record collection, by record id. */
  type Store = map<string, Body>

  /** A handler's effect: the collection afterwards and the reply. */
  datatype Outcome = Outcome(store: Store, reply: Reply)

  const NotFound := Reply(404, "Patient record not found", map[])
  const Denied := Reply(403, "Access denied", map[])
  const FetchFailed := Reply(500, "Failed to fetch patient record", map[])
  const CreateFailed := Reply(400, "Failed to create patient record", map[])
  const UpdateFailed := Reply(400, "Failed to update patient record", map[])
  const DeleteFailed := Reply(400, "Failed to delete patient record", map[])

  /** The claim the controller reads the user's id from. */
  const IdClaim := "_id"
  /** The claim `generateJWT` puts the user's id in. */
  const MintedIdClaim := "id"

  /** `record.patient.toString()`: the patient id, or `None` where `toString` throws. */
  function PatientId(record: Body): (p: Option<string>)
    ensures p.Some? <==> "patient" in record && record["patient"].Str?
    ensures p.Some? ==> record["patient"] == Str(p.value)
  {
    if "patient" in record && record["patient"].Str? then Some(record["patient"].s) else None
  }

  /** The roles that read every record in the handler's own check. */
  predicate Staff(role: Option<string>) {
    role == Some("Admin") || role == Some("Manager") || role == Some("Provider")
  }

  /** `getRecordById` reading the requester's id from claim `idClaim`. `fails` stands for
      `findById` throwing (an id that does not cast to an ObjectId, or a database error), which
      the `catch` answers with 500. */
  function GetRecordByIdWith(idClaim: string, store: Store, id: string, user: Option<Claims>, fails: bool): (r: Reply)
    ensures fails ==> r == FetchFailed
    ensures r == NotFound <==> !fails && id !in store
    ensures r.status == 200 <==>
              && !fails && id in store && user.Some?
              && (Staff(Lookup(user.value, "role"))
                  || (PatientId(store[id]).Some? && Lookup(user.value, idClaim) == PatientId(store[id])))
    ensures r.status == 200 ==> r.json == store[id]
    ensures r == Denied <==>
              && !fails && id in store && user.Some? && !Staff(Lookup(user.value, "role"))
              && PatientId(store[id]).Some? && idClaim in user.value && user.value[idClaim] != PatientId(store[id]).value
    ensures r.status !in {200, 403, 404} ==> r == FetchFailed
  {
    if fails then FetchFailed
    else if id !in store then NotFound
    else
      var record := store[id];
      if user.None? then FetchFailed
      else if Staff(Lookup(user.value, "role")) then Reply(200, "", record)
      else
        match (PatientId(record), Lookup(user.value, idClaim))
        case (None, _) => FetchFailed
        case (_, None) => FetchFailed
        case (Some(p), Some(u)) => if p != u then Denied else Reply(200, "", record)
  }

  /** `getRecordById` as written: the requester's id is `req.user._id`. */
  function GetRecordById(store: Store, id: string, user: Option<Claims>, fails: bool): (r: Reply)
    ensures fails ==> r == FetchFailed
    ensures r == NotFound <==> !fails && id !in store
    ensures r.status == 200 <==>
              && !fails && id in store && user.Some?
              && (Staff(Lookup(user.value, "role"))
                  || (PatientId(store[id]).Some? && Lookup(user.value, IdClaim) == PatientId(store[id])))
    ensures r.status == 200 ==> r.json == store[id]
    ensures r == Denied <==>
              && !fails && id in store && user.Some? && !Staff(Lookup(user.value, "role"))
              && PatientId(store[id]).Some? && IdClaim in user.value && user.value[IdClaim] != PatientId(store[id]).value
    ensures r.status !in {200, 403, 404} ==> r == FetchFailed
  {
    GetRecordByIdWith(IdClaim, store, id, user, fails)
  }

  /** `getRecordById` reading the id claim that tokens actually carry. */
  function GetRecordByIdFixed(store: Store, id: string, user: Option<Claims>, fails: bool): (r: Reply)
    ensures fails ==> r == FetchFailed
    ensures r == NotFound <==> !fails && id !in store
    ensures r.status == 200 <==>
              && !fails && id in store && user.Some?
              && (Staff(Lookup(user.value, "role"))
                  || (PatientId(store[id]).Some? && Lookup(user.value, MintedIdClaim) == PatientId(store[id])))
    ensures r.status == 200 ==> r.json == store[id]
  {
    GetRecordByIdWith(MintedIdClaim, store, id, user, fails)
  }

  /** The handler's check against `canViewRecordById`: it also lets the administrator through,
      and any role the helper does not name (an employee, say) whose id matches. */
  lemma GetRecordByIdAgainstRecordAccess(store: Store, id: string, role: string, uid: string, p: string)
    requires id in store && PatientId(store[id]) == Some(p)
    ensures var user := map["role" := role, IdClaim := uid];
            GetRecordById(store, id, Some(user), false).status == 200
            <==> RecordAccess.Allows(RecordAccess.CanViewRecordById(role, uid, p))
                 || role == "Admin" || (role != "Patient" && uid == p)
  {
    var user := map["role" := role, IdClaim := uid];
    assert Lookup(user, "role") == Some(role);
    assert Lookup(user, IdClaim) == Some(uid);
  }

  /** A missing record is reported before any look at the requester; a lookup that throws is
      reported as a 500, also before it. */
  lemma NotFoundBeforeAccessCheck(store: Store, id: string, user: Option<Claims>, other: Option<Claims>, fails: bool)
    requires id !in store || fails
    ensures GetRecordById(store, id, user, fails) == GetRecordById(store, id, other, fails)
    ensures GetRecordById(store, id, user, fails) == if fails then FetchFailed else NotFound
  {
  }

  /** A patient reading their own record with a token `generateJWT` minted: the token has no
      `_id`, so `req.user._id.toString()` throws and the request fails with 500. */
  lemma MintedOwnerFailsAsWritten(store: Store, id: string, user: Claims, uid: string, email: string, fails: bool)
    requires id in store && PatientId(store[id]) == Some(uid)
    requires MintedBy(user, uid, "Patient", email)
    ensures GetRecordById(store, id, Some(user), fails) == FetchFailed
  {
    MintedByLacksKeyAndUnderscoreId(user, uid, "Patient", email);
  }

  /** Reading the `id` claim, the same patient gets their record, and nobody else's. */
  lemma MintedOwnerServedFixed(store: Store, id: string, user: Claims, uid: string, email: string)
    requires id in store && PatientId(store[id]).Some?
    requires MintedBy(user, uid, "Patient", email)
    ensures GetRecordByIdFixed(store, id, Some(user), false).status == 200 <==> PatientId(store[id]) == Some(uid)
  {
  }

  /** The paths of the `PatientRecord` schema (models/PatientRecord.js). The schema is strict,
      Mongoose's default, so any other key of a new document or of an update is dropped. */
  const SchemaPaths: set<string> := {"patient", "diagnosis", "medicantions", "visitDate", "notes", "createdBy"}

  /** A body as the strict schema keeps it: the schema's keys, with their values. */
  function Strict(body: Body): (r: Body)
    ensures r.Keys == body.Keys * SchemaPaths
    ensures forall k | k in r :: r[k] == body[k]
  {
    map k | k in body.Keys * SchemaPaths :: body[k]
  }

  /** `new PatientRecord({ ...req.body, createdBy: <id> })`: the body's schema fields, with
      `createdBy` always the requester's, whatever the body said. */
  function Stamp(body: Body, creator: string): (record: Body)
    ensures record.Keys == body.Keys * SchemaPaths + {"createdBy"}
    ensures record.Keys <= SchemaPaths
    ensures record["createdBy"] == Str(creator)
    ensures forall k | k in body && k in SchemaPaths && k != "createdBy" :: record[k] == body[k]
  {
    Strict(body)["createdBy" := Str(creator)]
  }

  /** `createRecord` reading the creator from claim `idClaim`; `newId` is the id the database
      assigns. With the creator `undefined` the required `createdBy` fails validation. */
  function CreateRecordWith(idClaim: string, store: Store, newId: string, body: Body, user: Option<Claims>, fails: bool): (o: Outcome)
    ensures o.reply.status == 201 <==> user.Some? && idClaim in user.value && !fails && newId !in store
    ensures o.reply.status == 201 ==>
              && o.store == store[newId := Stamp(body, user.value[idClaim])]
              && o.reply.json == map["record" := Obj(Stamp(body, user.value[idClaim]))]
    ensures o.reply.status != 201 ==> o.store == store && o.reply == CreateFailed
  {
    if user.None? then Outcome(store, CreateFailed)
    else
      match Lookup(user.value, idClaim)
      case None => Outcome(store, CreateFailed)
      case Some(creator) =>
        if fails || newId in store then Outcome(store, CreateFailed)
        else
          var record := Stamp(body, creator);
          Outcome(store[newId := record], Reply(201, "Patient record created successfully", map["record" := Obj(record)]))
  }

  /** `createRecord` as written, with `createdBy: req.user._id`. */
  function CreateRecord(store: Store, newId: string, body: Body, user: Option<Claims>, fails: bool): (o: Outcome)
    ensures o.reply.status == 201 <==> user.Some? && IdClaim in user.value && !fails && newId !in store
    ensures o.reply.status == 201 ==> o.store == store[newId := Stamp(body, user.value[IdClaim])]
    ensures o.reply.status != 201 ==> o.store == store && o.reply == CreateFailed
  {
    CreateRecordWith(IdClaim, store, newId, body, user, fails)
  }

  /** `createRecord` taking the creator from the `id` claim. */
  function CreateRecordFixed(store: Store, newId: string, body: Body, user: Option<Claims>, fails: bool): (o: Outcome)
    ensures o.reply.status == 201 <==> user.Some? && MintedIdClaim in user.value && !fails && newId !in store
    ensures o.reply.status == 201 ==> o.store == store[newId := Stamp(body, user.value[MintedIdClaim])]
    ensures o.reply.status != 201 ==> o.store == store && o.reply == CreateFailed
  {
    CreateRecordWith(MintedIdClaim, store, newId, body, user, fails)
  }

  /** With a token `generateJWT` minted, no record can be created as written; reading the `id`
      claim, the provider's id is stamped on the record. */
  lemma MintedCreator(store: Store, newId: string, body: Body, user: Claims, uid: string, role: string, email: string)
    requires newId !in store
    requires MintedBy(user, uid, role, email)
    ensures CreateRecord(store, newId, body, Some(user), false) == Outcome(store, CreateFailed)
    ensures CreateRecordFixed(store, newId, body, Some(user), false).store[newId]["createdBy"] == Str(uid)
  {
    MintedByLacksKeyAndUnderscoreId(user, uid, role, email);
  }

  /** The keys the clients add outside the schema, the `medications` list and the wrapped
      `encryptedAesKey`, are never stored, whether sent with a new record or with an update. */
  lemma ClientKeysNotStored(store: Store, newId: string, body: Body, user: Option<Claims>, id: string)
    ensures CreateRecord(store, newId, body, user, false).reply.status == 201 ==>
              && "medications" !in CreateRecord(store, newId, body, user, false).store[newId]
              && "encryptedAesKey" !in CreateRecord(store, newId, body, user, false).store[newId]
    ensures id in store && "medications" !in store[id] && "encryptedAesKey" !in store[id] ==>
              && "medications" !in UpdateRecord(store, id, body, false).store[id]
              && "encryptedAesKey" !in UpdateRecord(store, id, body, false).store[id]
  {
  }

  /** A created record is there to read, with its creator, for the roles that read everything. */
  lemma CreateThenGet(store: Store, newId: string, body: Body, user: Claims, reader: Claims)
    requires CreateRecord(store, newId, body, Some(user), false).reply.status == 201
    requires Staff(Lookup(reader, "role"))
    ensures GetRecordById(CreateRecord(store, newId, body, Some(user), false).store, newId, Some(reader), false).json["createdBy"]
            == Str(user[IdClaim])
  {
  }

  /** `findByIdAndUpdate(id, req.body, { new: true })`: the body's fields replace the stored
      ones, the others stay. */
  function Merge(record: Body, update: Body): (r: Body)
    ensures r.Keys == record.Keys + update.Keys
    ensures forall k | k in update :: r[k] == update[k]
    ensures forall k | k in record && k !in update :: r[k] == record[k]
  {
    map k | k in record.Keys + update.Keys :: if k in update then update[k] else record[k]
  }

  /** `findByIdAndUpdate`: the strict schema drops the update's keys outside it, then the rest
      is merged into the stored record. */
  function UpdateRecord(store: Store, id: string, body: Body, fails: bool): (o: Outcome)
    ensures o.reply == NotFound <==> !fails && id !in store
    ensures o.reply.status == 200 <==> !fails && id in store
    ensures o.reply.status == 200 ==> o.store == store[id := Merge(store[id], Strict(body))]
    ensures o.reply.status == 200 ==> o.store[id].Keys <= store[id].Keys + SchemaPaths
    ensures o.reply.status == 200 ==> o.reply.json == map["record" := Obj(o.store[id])]
    ensures o.reply.status != 200 ==> o.store == store
    ensures fails ==> o.reply == UpdateFailed
  {
    if fails then Outcome(store, UpdateFailed)
    else if id !in store then Outcome(store, NotFound)
    else
      var record := Merge(store[id], Strict(body));
      Outcome(store[id := record], Reply(200, "Patient record updated successfully", map["record" := Obj(record)]))
  }

  function DeleteRecord(store: Store, id: string, fails: bool): (o: Outcome)
    ensures o.reply == NotFound <==> !fails && id !in store
    ensures o.reply.status == 200 <==> !fails && id in store
    ensures o.reply.status == 200 ==> o.store == store - {id} && o.store.Keys == store.Keys - {id}
    ensures o.reply.status != 200 ==> o.store == store
    ensures fails ==> o.reply == DeleteFailed
  {
    if fails then Outcome(store, DeleteFailed)
    else if id !in store then Outcome(store, NotFound)
    else Outcome(store - {id}, Reply(200, "Patient record deleted successfully", map[]))
  }

  /** A deleted record is gone for every reader, and a second delete reports it missing. */
  lemma DeleteThenGet(store: Store, id: string, user: Option<Claims>)
    requires DeleteRecord(store, id, false).reply.status == 200
    ensures GetRecordById(DeleteRecord(store, id, false).store, id, user, false) == NotFound
    ensures DeleteRecord(DeleteRecord(store, id, false).store, id, false).reply == NotFound
  {
  }

  /** Other records are untouched by an update or a delete. */
  lemma OthersUntouched(store: Store, id: string, other: string, body: Body)
    requires other != id && other in store
    ensures UpdateRecord(store, id, body, false).store[other] == store[other]
    ensures DeleteRecord(store, id, false).store[other] == store[other]
  {
  }

  /** Updating with the same body twice is the same as once. */
  lemma UpdateIdempotent(store: Store, id: string, body: Body)
    ensures UpdateRecord(UpdateRecord(store, id, body, false).store, id, body, false).store
            == UpdateRecord(store, id, body, false).store
  {
    if id in store {
      var once := Merge(store[id], Strict(body));
      assert Merge(once, Strict(body)) == once;
    }
  }
}
