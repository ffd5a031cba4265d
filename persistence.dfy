/**
 * The patient table the request handlers work on, standing in for the ORM:
 * rows keyed by id, ids assigned by the table on insert and never handed
 * out twice, and the listing ordered newest first by creation time.
 */
module Persistence {
  import opened Common

  /** A creation time; only its order is used. */
  datatype Timestamp = Timestamp(instant: int)

  /** The six fields a valid patient form supplies. */
  datatype PatientFields = PatientFields(
    emri: string,
    nr_cel: string,
    email: string,
    mjeku: string,
    cmimi: string,
    sherbimet: string)

  /** A stored patient. `cmimi` (the price) is text, as stored. */
  datatype Patient = Patient(
    id: int,
    emri: string,
    nr_cel: string,
    email: string,
    mjeku: string,
    cmimi: string,
    sherbimet: string,
    data: Option<Timestamp>)

  function FieldsOf(p: Patient): PatientFields {
    PatientFields(p.emri, p.nr_cel, p.email, p.mjeku, p.cmimi, p.sherbimet)
  }

  /** The record a create saves: the table's id, the form's fields and the
      creation time. */
  function NewPatient(id: int, f: PatientFields, now: Timestamp): (p: Patient)
    ensures p.id == id && FieldsOf(p) == f && p.data == Some(now)
  {
    Patient(id, f.emri, f.nr_cel, f.email, f.mjeku, f.cmimi, f.sherbimet, Some(now))
  }

  /** The record an update saves: every form field replaced, the id and the
      creation time kept. */
  function WithFields(p: Patient, f: PatientFields): (q: Patient)
    ensures q.id == p.id && q.data == p.data && FieldsOf(q) == f
  {
    p.(emri := f.emri, nr_cel := f.nr_cel, email := f.email, mjeku := f.mjeku,
       cmimi := f.cmimi, sherbimet := f.sherbimet)
  }

  /** Saving the same fields twice stores what saving them once does. */
  lemma WithFieldsIdempotent(p: Patient, f: PatientFields)
    ensures WithFields(WithFields(p, f), f) == WithFields(p, f)
  {
  }

  /** `a` may come before `b` when ordering by creation time, newest first;
      a record without a time comes after every record with one. */
  predicate NewerFirst(a: Patient, b: Patient) {
    match (a.data, b.data)
    case (Some(x), Some(y)) => x.instant >= y.instant
    case (_, None) => true
    case (None, Some(_)) => false
  }

  lemma NewerFirstTotal(a: Patient, b: Patient)
    ensures NewerFirst(a, b) || NewerFirst(b, a)
  {
  }

  lemma NewerFirstTransitive(a: Patient, b: Patient, c: Patient)
    requires NewerFirst(a, b) && NewerFirst(b, c)
    ensures NewerFirst(a, c)
  {
  }

  predicate NewestFirst(list: seq<Patient>) {
    forall i, j :: 0 <= i < j < |list| ==> NewerFirst(list[i], list[j])
  }

  /** The ids of a list of records, in order. */
  function IdsOf(list: seq<Patient>): (ids: seq<int>)
    ensures |ids| == |list|
  {
    if list == [] then [] else [list[0].id] + IdsOf(list[1..])
  }

  /** Put `p` into a newest-first list, before the first record it is not
      older than. */
  function InsertByDate(list: seq<Patient>, p: Patient): (r: seq<Patient>)
    requires NewestFirst(list)
    ensures NewestFirst(r)
    ensures multiset(IdsOf(r)) == multiset(IdsOf(list)) + multiset{p.id}
    ensures forall q :: q in r <==> q in list || q == p
  {
    if list == [] then [p]
    else if NewerFirst(p, list[0]) then
      forall j | 0 <= j < |list| ensures NewerFirst(p, list[j]) {
        if j > 0 { NewerFirstTransitive(p, list[0], list[j]); }
      }
      assert IdsOf([p] + list) == [p.id] + IdsOf(list);
      [p] + list
    else
      NewerFirstTotal(p, list[0]);
      var r := [list[0]] + InsertByDate(list[1..], p);
      assert r[1..] == InsertByDate(list[1..], p);
      assert IdsOf(list) == [list[0].id] + IdsOf(list[1..]);
      r
  }

  /** A non-empty set of ids has an element. */
  lemma HasElement(ids: set<int>)
    requires ids != {}
    ensures exists k :: k in ids
  {
    if forall k :: k !in ids {
      assert false;
    }
  }

  /** `list` lists, newest first and each exactly once, the records of
      `rows` whose ids are not in `todo`. */
  ghost predicate PartialListing(rows: map<int, Patient>, todo: set<int>, list: seq<Patient>) {
    && todo <= rows.Keys
    && NewestFirst(list)
    && multiset(IdsOf(list)) + multiset(todo) == multiset(rows.Keys)
    && (forall p :: p in list ==> p.id in rows && rows[p.id] == p)
  }

  /** Inserting the record of one more id keeps the listing partial-correct. */
  lemma ListingStep(rows: map<int, Patient>, todo: set<int>, list: seq<Patient>, k: int)
    requires PartialListing(rows, todo, list) && k in todo && rows[k].id == k
    ensures PartialListing(rows, todo - {k}, InsertByDate(list, rows[k]))
  {
  }

  class PatientTable {
    var rows: map<int, Patient>
    var nextId: int
    /** Every id the table has ever handed out. */
    ghost var issued: set<int>

    ghost predicate Valid()
      reads this
    {
      && (forall id :: id in rows ==> rows[id].id == id)
      && rows.Keys <= issued
      && (forall id :: id in issued ==> id < nextId)
    }

    constructor ()
      ensures Valid() && rows == map[] && issued == {}
    {
      rows := map[];
      nextId := 1;
      issued := {};
    }

    /** `form.save()` for a new record: the table picks an id it has never
        handed out before. */
    method Insert(f: PatientFields, now: Timestamp) returns (p: Patient)
      requires Valid()
      modifies this
      ensures Valid()
      ensures p == NewPatient(p.id, f, now) && p.id !in old(issued)
      ensures rows == old(rows)[p.id := p] && issued == old(issued) + {p.id}
    {
      p := NewPatient(nextId, f, now);
      rows := rows[nextId := p];
      issued := issued + {nextId};
      nextId := nextId + 1;
    }

    /** `form.save()` for an existing record. */
    method Save(p: Patient)
      requires Valid() && p.id in rows
      modifies this
      ensures Valid()
      ensures rows == old(rows)[p.id := p] && issued == old(issued)
    {
      rows := rows[p.id := p];
    }

    /** `patient.delete()` */
    method Delete(id: int)
      requires Valid()
      modifies this
      ensures Valid()
      ensures rows == old(rows) - {id} && issued == old(issued)
    {
      rows := rows - {id};
    }

    /** `Patient.objects.all().order_by('-data')`: every stored record
        exactly once, newest first. */
    method AllNewestFirst() returns (list: seq<Patient>)
      requires Valid()
      ensures NewestFirst(list)
      ensures multiset(IdsOf(list)) == multiset(rows.Keys)
      ensures forall p :: p in list ==> p.id in rows && rows[p.id] == p
    {
      list := [];
      var todo := rows.Keys;
      while todo != {}
        invariant PartialListing(rows, todo, list)
        decreases |todo|
      {
        HasElement(todo);
        var k :| k in todo;
        ListingStep(rows, todo, list, k);
        list := InsertByDate(list, rows[k]);
        todo := todo - {k};
      }
    }
  }
}
