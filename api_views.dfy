/**
 * The JSON request handlers for patients: the collection endpoint (list,
 * create) and the detail endpoint (read, replace, delete), over the patient
 * table. Form validation is a parameter (`Validator`), and so is what
 * `json.loads` makes of a request body (`Loads`).
 */
module ApiViews {
  import opened Common
  import opened Persistence

  newtype byte = b: int | 0 <= b < 256

  /** A decoded JSON document. */
  datatype Json =
    | JNull
    | JBool(truth: bool)
    | JNumber(number: int)
    | JString(str: string)
    | JArray(items: seq<Json>)
    | JObject(members: map<string, Json>)

  /** What `json.loads(body.decode('utf-8'))` does with a non-empty body:
      return a document, raise `JSONDecodeError`, or raise
      `UnicodeDecodeError` because the bytes are not UTF-8. */
  datatype Loads = Loaded(doc: Json) | JsonDecodeError | UnicodeDecodeError

  /** What `_parse_json_body` gives its caller: a payload, `None`, or an
      exception that escapes it. */
  datatype Parsed = Payload(value: Json) | NoPayload | Raised

  /** `_parse_json_body`. An empty body is an empty object; the only
      exception caught is `JSONDecodeError`, and a body holding the JSON
      literal `null` decodes to `None`, so the caller cannot tell it from a
      malformed one. */
  function ParseJsonBody(body: seq<byte>, loads: Loads): (r: Parsed)
    ensures |body| == 0 ==> r == Payload(JObject(map[]))
    ensures r.Payload? ==> r.value != JNull
    ensures r.Payload? && |body| > 0 ==> loads == Loaded(r.value)
    ensures r == NoPayload <==> |body| > 0 && (loads == JsonDecodeError || loads == Loaded(JNull))
    ensures r == Raised <==> |body| > 0 && loads == UnicodeDecodeError
  {
    if |body| == 0 then Payload(JObject(map[]))
    else
      match loads
      case Loaded(JNull) => NoPayload
      case Loaded(doc) => Payload(doc)
      case JsonDecodeError => NoPayload
      case UnicodeDecodeError => Raised
  }

  /** The JSON object a patient is sent as. `data` stands for the ISO-8601
      text of the timestamp, or null. */
  datatype PatientDto = PatientDto(
    id: int,
    emri: string,
    nr_cel: string,
    email: string,
    mjeku: string,
    cmimi: string,
    sherbimet: string,
    data: Option<Timestamp>)

  /** `_serialize_patient` */
  function Serialize(p: Patient): (d: PatientDto)
    ensures d.id == p.id && d.emri == p.emri && d.nr_cel == p.nr_cel && d.email == p.email
    ensures d.mjeku == p.mjeku && d.cmimi == p.cmimi && d.sherbimet == p.sherbimet
    ensures d.data.None? <==> p.data.None?
  {
    PatientDto(p.id, p.emri, p.nr_cel, p.email, p.mjeku, p.cmimi, p.sherbimet, p.data)
  }

  /** Reading a patient back from its JSON object. */
  function Deserialize(d: PatientDto): Patient {
    Patient(d.id, d.emri, d.nr_cel, d.email, d.mjeku, d.cmimi, d.sherbimet, d.data)
  }

  /** Serialising loses nothing: the record can be read back from it. */
  lemma SerializeRoundTrip(p: Patient)
    ensures Deserialize(Serialize(p)) == p
  {
  }

  function SerializeAll(list: seq<Patient>): (r: seq<PatientDto>)
    ensures |r| == |list| && forall i :: 0 <= i < |list| ==> r[i] == Serialize(list[i])
  {
    seq(|list|, i requires 0 <= i < |list| => Serialize(list[i]))
  }

  function DeserializeAll(list: seq<PatientDto>): (r: seq<Patient>)
    ensures |r| == |list| && forall i :: 0 <= i < |list| ==> r[i] == Deserialize(list[i])
  {
    seq(|list|, i requires 0 <= i < |list| => Deserialize(list[i]))
  }

  lemma SerializeAllRoundTrip(list: seq<Patient>)
    ensures DeserializeAll(SerializeAll(list)) == list
  {
  }

  /** `list` holds every record of `rows` exactly once, newest first. */
  ghost predicate IsListing(list: seq<Patient>, rows: map<int, Patient>) {
    && NewestFirst(list)
    && multiset(IdsOf(list)) == multiset(rows.Keys)
    && (forall p :: p in list ==> p.id in rows && rows[p.id] == p)
  }

  /** What the patient form makes of a payload: cleaned fields, or the
      messages for each field in error. */
  datatype Validation = Cleaned(fields: PatientFields) | Rejected(errors: map<string, seq<string>>)

  /** `PatientForm(payload, instance=...).is_valid()`, given the payload and
      the record being edited, if any. The handlers only hand it JSON
      objects: the form reads each field with `data.get(name)`, so any other
      payload raises `AttributeError` before validation can answer. */
  type Validator = (Json, Option<Patient>) -> Validation

  /** The HTTP verbs the handlers tell apart; `OtherVerb` is any other. */
  datatype Verb = Get | Post | Put | Delete | OtherVerb

  datatype Request = Request(verb: Verb, body: seq<byte>, loads: Loads)

  datatype Body =
    | Results(results: seq<PatientDto>)
    | Record(patient: PatientDto)
    | Message(error: string)
    | FieldErrors(errors: map<string, seq<string>>)
    | Status(status: string)
    | NotAllowed(permitted: seq<Verb>)
    | ServerError

  datatype Response = Response(code: int, body: Body)

  const InvalidJson := Response(400, Message("Invalid JSON payload."))
  const NotFound := Response(404, Message("Patient not found."))
  /** An exception escaping a view ends the request with status 500. */
  const Crash := Response(500, ServerError)

  /** `patients_collection`: GET lists every record, POST creates one. */
  method PatientsCollection(db: PatientTable, request: Request, validate: Validator, now: Timestamp)
    returns (response: Response)
    requires db.Valid()
    modifies db
    ensures db.Valid()
    ensures request.verb != Post ==> unchanged(db)
    ensures request.verb !in {Get, Post} ==> response == Response(405, NotAllowed([Get, Post]))
    ensures request.verb == Get ==>
      && response.code == 200 && response.body.Results?
      && IsListing(DeserializeAll(response.body.results), db.rows)
    ensures request.verb == Post ==>
      match ParseJsonBody(request.body, request.loads)
      case NoPayload => response == InvalidJson && unchanged(db)
      case Raised => response == Crash && unchanged(db)
      case Payload(payload) =>
        if !payload.JObject? then response == Crash && unchanged(db)
        else match validate(payload, None)
        case Rejected(errors) => response == Response(400, FieldErrors(errors)) && unchanged(db)
        case Cleaned(fields) =>
          && response.code == 201 && response.body.Record?
          && var created := Deserialize(response.body.patient);
          && created == NewPatient(created.id, fields, now)
          && created.id !in old(db.issued)
          && db.rows == old(db.rows)[created.id := created]
          && db.issued == old(db.issued) + {created.id}
  {
    match request.verb {
      case Get =>
        var patients := db.AllNewestFirst();
        SerializeAllRoundTrip(patients);
        return Response(200, Results(SerializeAll(patients)));
      case Post =>
      case _ =>
        return Response(405, NotAllowed([Get, Post]));
    }

    var parsed := ParseJsonBody(request.body, request.loads);
    if parsed.Raised? {
      return Crash;
    }
    if parsed.NoPayload? {
      return InvalidJson;
    }
    if !parsed.value.JObject? {
      return Crash;
    }

    match validate(parsed.value, None) {
      case Cleaned(fields) =>
        var patient := db.Insert(fields, now);
        return Response(201, Record(Serialize(patient)));
      case Rejected(errors) =>
        return Response(400, FieldErrors(errors));
    }
  }

  /** `patient_detail`: GET reads, PUT replaces and DELETE removes the
      record `pk`; an unknown `pk` is 404 for each of them. */
  method PatientDetail(db: PatientTable, request: Request, pk: int, validate: Validator)
    returns (response: Response)
    requires db.Valid()
    modifies db
    ensures db.Valid() && db.issued == old(db.issued)
    ensures request.verb !in {Get, Put, Delete} ==>
      response == Response(405, NotAllowed([Get, Put, Delete])) && unchanged(db)
    ensures request.verb in {Get, Put, Delete} && pk !in old(db.rows) ==>
      response == NotFound && unchanged(db)
    ensures request.verb == Get && pk in old(db.rows) ==>
      response == Response(200, Record(Serialize(old(db.rows[pk])))) && unchanged(db)
    ensures request.verb == Delete && pk in old(db.rows) ==>
      response == Response(200, Status("deleted")) && db.rows == old(db.rows) - {pk}
    ensures request.verb == Put && pk in old(db.rows) ==>
      match ParseJsonBody(request.body, request.loads)
      case NoPayload => response == InvalidJson && unchanged(db)
      case Raised => response == Crash && unchanged(db)
      case Payload(payload) =>
        if !payload.JObject? then response == Crash && unchanged(db)
        else match validate(payload, Some(old(db.rows[pk])))
        case Rejected(errors) => response == Response(400, FieldErrors(errors)) && unchanged(db)
        case Cleaned(fields) =>
          && db.rows == old(db.rows)[pk := WithFields(old(db.rows[pk]), fields)]
          && response == Response(200, Record(Serialize(db.rows[pk])))
  {
    if request.verb !in {Get, Put, Delete} {
      return Response(405, NotAllowed([Get, Put, Delete]));
    }
    if pk !in db.rows {
      return NotFound;
    }
    var patient := db.rows[pk];

    if request.verb == Get {
      return Response(200, Record(Serialize(patient)));
    }

    if request.verb == Delete {
      db.Delete(pk);
      return Response(200, Status("deleted"));
    }

    var parsed := ParseJsonBody(request.body, request.loads);
    if parsed.Raised? {
      return Crash;
    }
    if parsed.NoPayload? {
      return InvalidJson;
    }
    if !parsed.value.JObject? {
      return Crash;
    }

    match validate(parsed.value, Some(patient)) {
      case Cleaned(fields) =>
        patient := WithFields(patient, fields);
        db.Save(patient);
        return Response(200, Record(Serialize(patient)));
      case Rejected(errors) =>
        return Response(400, FieldErrors(errors));
    }
  }

  /** Deleting is final: once a record is deleted, reading it and deleting
      it again both answer 404. */
  method DeleteIsTerminal(db: PatientTable, pk: int, validate: Validator)
    returns (first: Response, read: Response, second: Response)
    requires db.Valid() && pk in db.rows
    modifies db
    ensures first == Response(200, Status("deleted"))
    ensures read == NotFound && second == NotFound
    ensures db.rows == old(db.rows) - {pk}
  {
    first := PatientDetail(db, Request(Delete, [], JsonDecodeError), pk, validate);
    read := PatientDetail(db, Request(Get, [], JsonDecodeError), pk, validate);
    second := PatientDetail(db, Request(Delete, [], JsonDecodeError), pk, validate);
  }

  /** A created patient reads back with the submitted fields, the id it was
      given and a creation time. */
  method CreateThenRead(db: PatientTable, body: seq<byte>, loads: Loads, validate: Validator,
                        now: Timestamp, fields: PatientFields)
    returns (created: Response, read: Response)
    requires db.Valid()
    requires ParseJsonBody(body, loads).Payload? && ParseJsonBody(body, loads).value.JObject?
    requires validate(ParseJsonBody(body, loads).value, None) == Cleaned(fields)
    modifies db
    ensures created.code == 201 && created.body.Record?
    ensures read == Response(200, created.body)
    ensures FieldsOf(Deserialize(read.body.patient)) == fields
    ensures read.body.patient.data == Some(now)
  {
    created := PatientsCollection(db, Request(Post, body, loads), validate, now);
    var id := created.body.patient.id;
    read := PatientDetail(db, Request(Get, [], JsonDecodeError), id, validate);
  }

  /** Sending the same update twice leaves the table as sending it once,
      and both answers are the same. */
  method UpdateTwice(db: PatientTable, pk: int, body: seq<byte>, loads: Loads,
                     validate: Validator, fields: PatientFields)
    returns (first: Response, second: Response)
    requires db.Valid() && pk in db.rows
    requires ParseJsonBody(body, loads).Payload? && ParseJsonBody(body, loads).value.JObject?
    requires validate(ParseJsonBody(body, loads).value, Some(db.rows[pk])) == Cleaned(fields)
    requires validate(ParseJsonBody(body, loads).value, Some(WithFields(db.rows[pk], fields))) == Cleaned(fields)
    modifies db
    ensures first == second && first.code == 200
    ensures db.rows == old(db.rows)[pk := WithFields(old(db.rows[pk]), fields)]
  {
    first := PatientDetail(db, Request(Put, body, loads), pk, validate);
    second := PatientDetail(db, Request(Put, body, loads), pk, validate);
    WithFieldsIdempotent(old(db.rows[pk]), fields);
  }

  /** Ids are never reused: a record created after another one was deleted
      does not get the deleted record's id. */
  method DeletedIdNotReused(db: PatientTable, body: seq<byte>, loads: Loads, validate: Validator,
                            now: Timestamp, fields: PatientFields)
    returns (first: Response, removed: Response, second: Response)
    requires db.Valid()
    requires ParseJsonBody(body, loads).Payload? && ParseJsonBody(body, loads).value.JObject?
    requires validate(ParseJsonBody(body, loads).value, None) == Cleaned(fields)
    modifies db
    ensures first.code == 201 && first.body.Record?
    ensures removed == Response(200, Status("deleted"))
    ensures second.code == 201 && second.body.Record?
    ensures second.body.patient.id != first.body.patient.id
    ensures first.body.patient.id !in db.rows
  {
    first := PatientsCollection(db, Request(Post, body, loads), validate, now);
    var id := first.body.patient.id;
    removed := PatientDetail(db, Request(Delete, [], JsonDecodeError), id, validate);
    second := PatientsCollection(db, Request(Post, body, loads), validate, now);
  }
}
