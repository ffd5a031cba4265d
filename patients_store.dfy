/**
 * The front-end patient store: the list shown to the user, the patient
 * being viewed, a loading flag and an error text, and the five actions that
 * update them from the answers of the patient endpoints. Each action is
 * modelled as one atomic step given the response it received.
 */
module PatientsStore {
  import opened Common
  import opened Fetch

  /** A patient as the client receives it; every text field may be null. */
  datatype Patient = Patient(
    id: int,
    emri: Option<string>,
    nr_cel: Option<string>,
    email: Option<string>,
    mjeku: Option<string>,
    cmimi: Option<string>,
    sherbimet: Option<string>,
    data: Option<string>)

  /** The payload of the list endpoint; `results` may be missing. */
  datatype PatientList = PatientList(results: Option<seq<Patient>>)

  /** This store's `request`: an ok response resolves to its payload; a
      non-ok one throws an `Error` carrying the body's `error` text (or the
      default text) and the body; a rejected `fetch` throws its own error. */
  function Request<T>(response: Response<T>): (o: Outcome<T>)
    ensures o.Value? <==> response.Ok?
    ensures response.Ok? ==> o.value == response.payload
    ensures response.Failed? ==>
      o.thrown == ErrorObject(FailureMessage(response.body), Some(response.body), None)
    ensures response.NetworkError? ==> o.thrown == ErrorObject(response.message, None, None)
  {
    match response
    case Ok(payload) => Value(payload)
    case Failed(_, body) => Threw(ErrorObject(FailureMessage(body), Some(body), None))
    case NetworkError(message) => Threw(ErrorObject(message, None, None))
  }

  /** `patients.map(item => item.id === updated.id ? updated : item)` */
  function ReplaceById(list: seq<Patient>, updated: Patient): (r: seq<Patient>)
    ensures |r| == |list|
    ensures forall i :: 0 <= i < |list| ==>
      r[i] == (if list[i].id == updated.id then updated else list[i])
  {
    if list == [] then []
    else [if list[0].id == updated.id then updated else list[0]] + ReplaceById(list[1..], updated)
  }

  /** `patients.filter(item => item.id !== id)` */
  function RemoveById(list: seq<Patient>, id: int): (r: seq<Patient>)
    ensures |r| <= |list|
    ensures forall p :: p in r <==> p in list && p.id != id
  {
    if list == [] then []
    else (if list[0].id != id then [list[0]] else []) + RemoveById(list[1..], id)
  }

  /** Replacing by id keeps every id in its place. */
  lemma ReplaceByIdKeepsIds(list: seq<Patient>, updated: Patient)
    ensures forall i :: 0 <= i < |list| ==> ReplaceById(list, updated)[i].id == list[i].id
  {
  }

  /** Applying the same update twice is the same as applying it once. */
  lemma ReplaceByIdIdempotent(list: seq<Patient>, updated: Patient)
    ensures ReplaceById(ReplaceById(list, updated), updated) == ReplaceById(list, updated)
  {
  }

  /** Filtering distributes over concatenation, so the entries kept stay in
      their original relative order. */
  lemma {:induction false} RemoveByIdConcat(a: seq<Patient>, b: seq<Patient>, id: int)
    ensures RemoveById(a + b, id) == RemoveById(a, id) + RemoveById(b, id)
  {
    if a == [] {
      assert a + b == b;
    } else {
      assert (a + b)[1..] == a[1..] + b;
      RemoveByIdConcat(a[1..], b, id);
    }
  }

  /** Each entry with another id is kept as often as it occurred; entries
      with the removed id are all gone. */
  lemma {:induction false} RemoveByIdCounts(list: seq<Patient>, id: int, p: Patient)
    ensures multiset(RemoveById(list, id))[p] == if p.id == id then 0 else multiset(list)[p]
  {
    if list != [] {
      RemoveByIdCounts(list[1..], id, p);
      assert list == [list[0]] + list[1..];
    }
  }

  /** A list holding no entry with the id is left as it is. */
  lemma {:induction false} RemoveByIdAbsent(list: seq<Patient>, id: int)
    requires forall i :: 0 <= i < |list| ==> list[i].id != id
    ensures RemoveById(list, id) == list
  {
    if list != [] {
      RemoveByIdAbsent(list[1..], id);
    }
  }

  /** Deleting the patient just prepended by a create, when no other entry
      shares its id, gives back the list as it was before the create. */
  lemma DeleteUndoesCreate(list: seq<Patient>, created: Patient)
    requires forall i :: 0 <= i < |list| ==> list[i].id != created.id
    ensures RemoveById([created] + list, created.id) == list
  {
    assert ([created] + list)[1..] == list;
    RemoveByIdAbsent(list, created.id);
  }

  class Store {
    var patients: seq<Patient>
    var currentPatient: Option<Patient>
    var loading: bool
    var error: string

    constructor ()
      ensures patients == [] && currentPatient == None && !loading && error == ""
    {
      patients := [];
      currentPatient := None;
      loading := false;
      error := "";
    }

    method SetError(err: Thrown)
      modifies this`error
      ensures error == ErrorText(err)
    {
      match err {
        case Falsy => error := "";
        case ErrorObject(message, _, _) => error := message;
        case Other(text) => error := text;
      }
    }

    /** Load the whole list. */
    method FetchPatients(response: Response<PatientList>)
      modifies this
      ensures !loading && currentPatient == old(currentPatient)
      ensures response.Ok? ==> patients == response.payload.results.GetOr([]) && error == ""
      ensures !response.Ok? ==> patients == old(patients) && error == ErrorText(Request(response).thrown)
      ensures response.Failed? ==> error != ""
    {
      loading := true;
      SetError(Falsy);
      match Request(response) {
        case Value(data) => patients := data.results.GetOr([]);
        case Threw(err) => SetError(err);
      }
      loading := false;
    }

    /** Load one patient into `currentPatient`. */
    method FetchPatient(response: Response<Patient>) returns (r: Option<Patient>)
      modifies this
      ensures !loading && patients == old(patients)
      ensures response.Ok? ==>
        currentPatient == Some(response.payload) && r == currentPatient && error == ""
      ensures !response.Ok? ==>
        currentPatient == old(currentPatient) && r == None && error == ErrorText(Request(response).thrown)
      ensures response.Failed? ==> error != ""
    {
      loading := true;
      SetError(Falsy);
      match Request(response) {
        case Value(p) =>
          currentPatient := Some(p);
          r := currentPatient;
        case Threw(err) =>
          SetError(err);
          r := None;
      }
      loading := false;
    }

    /** Create a patient; the created record goes to the front of the list. */
    method CreatePatient(response: Response<Patient>) returns (r: Option<Patient>)
      modifies this
      ensures loading == old(loading) && currentPatient == old(currentPatient)
      ensures response.Ok? ==>
        patients == [response.payload] + old(patients) && r == Some(response.payload) && error == ""
      ensures !response.Ok? ==>
        patients == old(patients) && r == None && error == ErrorText(Request(response).thrown)
      ensures response.Failed? ==> error != ""
    {
      SetError(Falsy);
      match Request(response) {
        case Value(created) =>
          patients := [created] + patients;
          r := Some(created);
        case Threw(err) =>
          SetError(err);
          r := None;
      }
    }

    /** Update a patient: every entry carrying the returned record's id is
        replaced, and so is `currentPatient` when it carries that id. */
    method UpdatePatient(response: Response<Patient>) returns (r: Option<Patient>)
      modifies this
      ensures loading == old(loading)
      ensures response.Ok? ==>
        var updated := response.payload;
        && patients == ReplaceById(old(patients), updated)
        && currentPatient == (if old(currentPatient).Some? && old(currentPatient).value.id == updated.id
                              then Some(updated) else old(currentPatient))
        && r == Some(updated) && error == ""
      ensures !response.Ok? ==>
        && patients == old(patients) && currentPatient == old(currentPatient)
        && r == None && error == ErrorText(Request(response).thrown)
      ensures response.Failed? ==> error != ""
    {
      SetError(Falsy);
      match Request(response) {
        case Value(updated) =>
          patients := ReplaceById(patients, updated);
          if currentPatient.Some? && currentPatient.value.id == updated.id {
            currentPatient := Some(updated);
          }
          r := Some(updated);
        case Threw(err) =>
          SetError(err);
          r := None;
      }
    }

    /** Delete the patient `id`: it leaves the list, and `currentPatient`
        is cleared when it is that patient. */
    method DeletePatient<T>(id: int, response: Response<T>) returns (deleted: bool)
      modifies this
      ensures loading == old(loading)
      ensures deleted <==> response.Ok?
      ensures response.Ok? ==>
        && patients == RemoveById(old(patients), id)
        && currentPatient == (if old(currentPatient).Some? && old(currentPatient).value.id == id
                              then None else old(currentPatient))
        && error == ""
      ensures !response.Ok? ==>
        && patients == old(patients) && currentPatient == old(currentPatient)
        && error == ErrorText(Request(response).thrown)
      ensures response.Failed? ==> error != ""
    {
      SetError(Falsy);
      match Request(response) {
        case Value(_) =>
          patients := RemoveById(patients, id);
          if currentPatient.Some? && currentPatient.value.id == id {
            currentPatient := None;
          }
          deleted := true;
        case Threw(err) =>
          SetError(err);
          deleted := false;
      }
    }
  }
}
