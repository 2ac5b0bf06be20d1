/**
 * The student routes: what each handler answers and how it changes the
 * collection (src/main.py:108-172).
 */
module Handlers {
  import opened Wrappers
  import opened Students

  datatype Body =
    | NoBody
    | Detail(text: string)          // an `HTTPException` detail
    | PlainText(text: string)       // a plain `Response(content=...)`
    | Listing(data: seq<Summary>)   // `{"data": [...]}`
    | StudentBody(student: Student) // a `Student` body

  datatype Response = Response(status: nat, body: Body)

  const NotFound := Response(404, Detail("Student not found"))

  /** The requests the routes serve; ids are already converted to `ObjectId`s. */
  datatype Request =
    | ListStudentsRequest(country: Option<string>, age: int)
    | GetStudent(id: Id)
    | PatchStudent(id: Id, patch: StudentPatch)
    | DeleteStudent(id: Id)

  /** What a handler answers, and the collection it leaves behind. */
  datatype Outcome = Outcome(response: Response, docs: seq<Document>)

  /** `all_students` (src/main.py:108-121). */
  function AllStudents(docs: seq<Document>, country: Option<string>, age: int): Response {
    Response(200, Listing(ListStudents(docs, country, age)))
  }

  /** `student_by_id` (src/main.py:124-139): the stored fields rebuilt into a `Student`. */
  function StudentById(docs: seq<Document>, id: Id): Response {
    match Lookup(docs, id)
    case None => NotFound
    case Some(s) => Response(200, StudentBody(Student(s.name, s.age, Address(s.address.city, s.address.country))))
  }

  /** `update_student` (src/main.py:142-160). */
  function UpdateOutcome(docs: seq<Document>, id: Id, patch: StudentPatch): Outcome {
    match Lookup(docs, id)
    case None => Outcome(NotFound, docs)
    case Some(s) => Outcome(Response(204, NoBody), Replace(docs, id, Merge(s, patch)))
  }

  /** `delete_student` (src/main.py:163-172); FastAPI sends the `None` result with status 200. */
  function DeleteOutcome(docs: seq<Document>, id: Id): Outcome {
    match Lookup(docs, id)
    case None => Outcome(NotFound, docs)
    case Some(_) => Outcome(Response(200, NoBody), Remove(docs, id))
  }

  /** The handler a request is routed to. */
  function Route(docs: seq<Document>, req: Request): Outcome {
    match req
    case ListStudentsRequest(country, age) => Outcome(AllStudents(docs, country, age), docs)
    case GetStudent(id) => Outcome(StudentById(docs, id), docs)
    case PatchStudent(id, patch) => UpdateOutcome(docs, id, patch)
    case DeleteStudent(id) => DeleteOutcome(docs, id)
  }

  // ---------------------------------------------------------------------------
  // Properties of the routes

  /** The listing answers 200 with exactly the matching `{name, age}` pairs, in collection order. */
  lemma AllStudentsContents(docs: seq<Document>, country: Option<string>, age: int, x: Summary)
    ensures AllStudents(docs, country, age).status == 200
    ensures x in AllStudents(docs, country, age).body.data <==>
      exists i :: 0 <= i < |docs| && Listed(docs[i].student, country, age) && x == Summarize(docs[i].student)
  {
    ListMembership(docs, country, age, x);
  }

  /** A lookup answers 404 for an absent id and the stored document for a present one. */
  lemma StudentByIdFound(docs: seq<Document>, i: nat)
    requires UniqueIds(docs) && i < |docs|
    ensures StudentById(docs, docs[i].id) == Response(200, StudentBody(docs[i].student))
  {
    LookupAt(docs, i);
  }

  lemma StudentByIdAbsent(docs: seq<Document>, id: Id)
    requires id !in Ids(docs)
    ensures StudentById(docs, id) == NotFound
  {
  }

  /**
   * An update of an absent id answers 404 and changes nothing; of a present id
   * it answers 204, the id now holds the merged student, and every other id
   * holds what it held.
   */
  lemma UpdateEffect(docs: seq<Document>, id: Id, patch: StudentPatch, other: Id)
    requires UniqueIds(docs)
    ensures var o := UpdateOutcome(docs, id, patch);
      && UniqueIds(o.docs)
      && Ids(o.docs) == Ids(docs)
      && (id !in Ids(docs) ==> o == Outcome(NotFound, docs))
      && (id in Ids(docs) ==>
            && o.response == Response(204, NoBody)
            && Lookup(o.docs, id) == Some(Merge(Lookup(docs, id).value, patch))
            && (other != id ==> Lookup(o.docs, other) == Lookup(docs, other)))
  {
    if id in Ids(docs) {
      ReplaceChangesOne(docs, id, Merge(Lookup(docs, id).value, patch), other);
    }
  }

  /**
   * A delete of an absent id answers 404 and changes nothing; of a present id
   * it answers 200, removes that one document, and leaves every other id as it was.
   */
  lemma DeleteEffect(docs: seq<Document>, id: Id, other: Id)
    requires UniqueIds(docs)
    ensures var o := DeleteOutcome(docs, id);
      && UniqueIds(o.docs)
      && (id !in Ids(docs) ==> o == Outcome(NotFound, docs))
      && (id in Ids(docs) ==>
            && o.response == Response(200, NoBody)
            && |o.docs| == |docs| - 1
            && Lookup(o.docs, id).None?
            && (other != id ==> Lookup(o.docs, other) == Lookup(docs, other)))
  {
    if id in Ids(docs) {
      RemoveExactlyOne(docs, id, other);
    }
  }

  /** After a successful delete, looking the id up answers 404. */
  lemma DeleteThenGet(docs: seq<Document>, id: Id)
    requires UniqueIds(docs) && id in Ids(docs)
    ensures StudentById(DeleteOutcome(docs, id).docs, id) == NotFound
  {
    RemoveExactlyOne(docs, id, id);
  }

  /** A patch that only names a city keeps the stored country. */
  lemma PatchCityKeepsCountry(docs: seq<Document>, id: Id, city: string)
    requires UniqueIds(docs) && id in Ids(docs)
    ensures var after := Lookup(UpdateOutcome(docs, id, StudentPatch(None, None, Some(AddressPatch(Some(city), None)))).docs, id);
      && after.Some?
      && after.value.address == Address(city, Lookup(docs, id).value.address.country)
      && after.value.name == Lookup(docs, id).value.name
      && after.value.age == Lookup(docs, id).value.age
  {
    var patch := StudentPatch(None, None, Some(AddressPatch(Some(city), None)));
    ReplaceChangesOne(docs, id, Merge(Lookup(docs, id).value, patch), id);
  }

  /** Reads leave the collection as it was; only updates and deletes change it. */
  lemma RouteKeepsUniqueIds(docs: seq<Document>, req: Request)
    requires UniqueIds(docs)
    ensures UniqueIds(Route(docs, req).docs)
    ensures req.ListStudentsRequest? || req.GetStudent? ==> Route(docs, req).docs == docs
  {
    match req
    case PatchStudent(id, patch) => UpdateEffect(docs, id, patch, id);
    case DeleteStudent(id) => DeleteEffect(docs, id, id);
    case _ =>
  }

  // ---------------------------------------------------------------------------
  // The student collection, changed in place by the handlers

  /** The document collection: its documents in collection order. */
  class StudentCollection {
    var docs: seq<Document>

    ghost predicate Valid()
      reads this
    {
      UniqueIds(docs)
    }

    constructor (initial: seq<Document>)
      requires UniqueIds(initial)
      ensures Valid() && docs == initial
    {
      docs := initial;
    }

    /** `find_one({"_id": id})`. */
    function FindOne(id: Id): (r: Option<Student>)
      reads this
      ensures r.None? <==> id !in Ids(docs)
    {
      Lookup(docs, id)
    }

    /** `update_one({"_id": id}, {"$set": fields})`. */
    method UpdateOne(id: Id, s: Student)
      requires Valid()
      modifies this
      ensures Valid()
      ensures docs == Replace(old(docs), id, s)
    {
      if id in Ids(docs) {
        ReplaceChangesOne(docs, id, s, id);
      } else {
        ReplaceAbsent(docs, id, s);
      }
      docs := Replace(docs, id, s);
    }

    /** `delete_one({"_id": id})`. */
    method DeleteOne(id: Id)
      requires Valid()
      modifies this
      ensures Valid()
      ensures docs == Remove(old(docs), id)
      ensures |docs| == |old(docs)| - (if id in Ids(old(docs)) then 1 else 0)
    {
      if id in Ids(docs) {
        RemoveExactlyOne(docs, id, id);
      } else {
        RemoveAbsent(docs, id);
      }
      docs := Remove(docs, id);
    }
  }

  /** `update_student`: find, then 404 or merge the patch into the stored document. */
  method UpdateStudent(coll: StudentCollection, id: Id, patch: StudentPatch) returns (resp: Response)
    requires coll.Valid()
    modifies coll
    ensures coll.Valid()
    ensures Outcome(resp, coll.docs) == UpdateOutcome(old(coll.docs), id, patch)
  {
    var student := coll.FindOne(id);
    if student.None? {
      return NotFound;
    }
    var merged := Merge(student.value, patch);
    coll.UpdateOne(id, merged);
    resp := Response(204, NoBody);
  }

  /** `delete_student`: find, then 404 or delete that document. */
  method DeleteStudentById(coll: StudentCollection, id: Id) returns (resp: Response)
    requires coll.Valid()
    modifies coll
    ensures coll.Valid()
    ensures Outcome(resp, coll.docs) == DeleteOutcome(old(coll.docs), id)
  {
    var student := coll.FindOne(id);
    if student.None? {
      return NotFound;
    }
    coll.DeleteOne(id);
    resp := Response(200, NoBody);
  }

  /** The wrapped application `call_next`: the handler the request is routed to. */
  method CallNext(coll: StudentCollection, req: Request) returns (resp: Response)
    requires coll.Valid()
    modifies coll
    ensures coll.Valid()
    ensures Outcome(resp, coll.docs) == Route(old(coll.docs), req)
  {
    match req
    case ListStudentsRequest(country, age) =>
      resp := AllStudents(coll.docs, country, age);
    case GetStudent(id) =>
      resp := StudentById(coll.docs, id);
    case PatchStudent(id, patch) =>
      resp := UpdateStudent(coll, id, patch);
    case DeleteStudent(id) =>
      resp := DeleteStudentById(coll, id);
  }
}
