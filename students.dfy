/**
 * The student resource and the pure operations the handlers perform on it:
 * the partial-update merge, lookup by id, replace and remove of one document,
 * and the filtered listing.
 */
module Students {
  import opened Wrappers

  datatype Address = Address(city: string, country: string)

  datatype Student = Student(name: string, age: int, address: Address)

  /** A partial address: `None` is a field left out of the request body. */
  datatype AddressPatch = AddressPatch(city: Option<string>, country: Option<string>)

  /** A partial student, as a PATCH body; every field may be left out. */
  datatype StudentPatch = StudentPatch(name: Option<string>, age: Option<int>, address: Option<AddressPatch>)

  /** The `{name, age}` projection the listing returns. */
  datatype Summary = Summary(name: string, age: int)

  /** A store-assigned document id, after conversion to an `ObjectId`. */
  type Id = string

  datatype Document = Document(id: Id, student: Student)

  // ---------------------------------------------------------------------------
  // Merge (src/main.py:151-156)

  /** The address after a partial update: each present field replaces the stored one. */
  function MergeAddress(a: Address, p: AddressPatch): Address {
    Address(p.city.GetOr(a.city), p.country.GetOr(a.country))
  }

  /**
   * The document after a partial update: present top-level fields replace the
   * stored ones, and a present address patch merges into the stored address.
   */
  function Merge(s: Student, p: StudentPatch): Student {
    Student(
      p.name.GetOr(s.name),
      p.age.GetOr(s.age),
      match p.address
      case None => s.address
      case Some(ap) => MergeAddress(s.address, ap))
  }

  /** The patch that applying `p` and then `q` amounts to. */
  function Then(p: StudentPatch, q: StudentPatch): StudentPatch {
    StudentPatch(
      if q.name.Some? then q.name else p.name,
      if q.age.Some? then q.age else p.age,
      match (p.address, q.address)
      case (None, qa) => qa
      case (pa, None) => pa
      case (Some(pa), Some(qa)) =>
        Some(AddressPatch(
          if qa.city.Some? then qa.city else pa.city,
          if qa.country.Some? then qa.country else pa.country)))
  }

  /** Field-by-field statement of the merge rule. */
  lemma MergeFields(s: Student, p: StudentPatch)
    ensures var r := Merge(s, p);
      && (p.name.Some? ==> r.name == p.name.value) && (p.name.None? ==> r.name == s.name)
      && (p.age.Some? ==> r.age == p.age.value) && (p.age.None? ==> r.age == s.age)
      && (p.address.None? ==> r.address == s.address)
      && (p.address.Some? && p.address.value.city.Some? ==> r.address.city == p.address.value.city.value)
      && (p.address.Some? && p.address.value.city.None? ==> r.address.city == s.address.city)
      && (p.address.Some? && p.address.value.country.Some? ==> r.address.country == p.address.value.country.value)
      && (p.address.Some? && p.address.value.country.None? ==> r.address.country == s.address.country)
  {
  }

  /** Applying the same patch twice changes nothing further. */
  lemma MergeIdempotent(s: Student, p: StudentPatch)
    ensures Merge(Merge(s, p), p) == Merge(s, p)
  {
  }

  /** Two updates in a row are one update with the combined patch. */
  lemma MergeThen(s: Student, p: StudentPatch, q: StudentPatch)
    ensures Merge(Merge(s, p), q) == Merge(s, Then(p, q))
  {
  }

  // ---------------------------------------------------------------------------
  // The merge as the handler writes it: dictionary unions over the document.

  /** A value in a stored document or a dumped request body. */
  datatype Field = Text(text: string) | Number(number: int) | Nested(entries: map<string, string>)

  type Dict = map<string, Field>

  function AddressDict(a: Address): map<string, string> {
    map["city" := a.city, "country" := a.country]
  }

  /** The stored document's fields, as the collection returns them. */
  function StudentDict(s: Student): Dict {
    map["name" := Text(s.name), "age" := Number(s.age), "address" := Nested(AddressDict(s.address))]
  }

  /** `model_dump(exclude_none=True)` of an address patch: the present fields only. */
  function DumpAddress(p: AddressPatch): map<string, string> {
    var m: map<string, string> := map[];
    var m := if p.city.Some? then m["city" := p.city.value] else m;
    if p.country.Some? then m["country" := p.country.value] else m
  }

  /** `model_dump(exclude_none=True)` of a student patch: the present fields only. */
  function Dump(p: StudentPatch): Dict {
    var m: Dict := map[];
    var m := if p.name.Some? then m["name" := Text(p.name.value)] else m;
    var m := if p.age.Some? then m["age" := Number(p.age.value)] else m;
    if p.address.Some? then m["address" := Nested(DumpAddress(p.address.value))] else m
  }

  /**
   * Lines 151-156 as written: dump the patch, replace its address by
   * `student["address"] | patch["address"]` when present, then `student | patch`.
   */
  function MergeAsWritten(stored: Dict, p: StudentPatch): Dict
    requires "address" in stored && stored["address"].Nested?
  {
    var fields := Dump(p);
    var fields' :=
      if "address" in fields && fields["address"].Nested?
      then fields["address" := Nested(stored["address"].entries + fields["address"].entries)]
      else fields;
    stored + fields'
  }

  /** The dictionary unions of the handler compute exactly `Merge`. */
  lemma MergeAsWrittenIsMerge(s: Student, p: StudentPatch)
    ensures MergeAsWritten(StudentDict(s), p) == StudentDict(Merge(s, p))
  {
    var stored := StudentDict(s);
    var fields := Dump(p);
    assert fields.Keys <= stored.Keys;
    var address :=
      if p.address.Some? then AddressDict(s.address) + DumpAddress(p.address.value) else AddressDict(s.address);
    if p.address.Some? {
      MergeAddressAsWritten(s.address, p.address.value);
    }
    var lhs, rhs := MergeAsWritten(stored, p), StudentDict(Merge(s, p));
    assert lhs.Keys == rhs.Keys;
    assert lhs["name"] == rhs["name"];
    assert lhs["age"] == rhs["age"];
    assert lhs["address"] == Nested(address) == rhs["address"];
  }

  /** `student["address"] | patch["address"]` is the field-by-field address merge. */
  lemma MergeAddressAsWritten(a: Address, p: AddressPatch)
    ensures AddressDict(a) + DumpAddress(p) == AddressDict(MergeAddress(a, p))
  {
    var lhs, rhs := AddressDict(a) + DumpAddress(p), AddressDict(MergeAddress(a, p));
    assert lhs.Keys == rhs.Keys;
    assert lhs["city"] == rhs["city"];
    assert lhs["country"] == rhs["country"];
  }

  // ---------------------------------------------------------------------------
  // The collection's documents, in collection order.

  /** The ids of the documents, in collection order. */
  function Ids(docs: seq<Document>): (ids: seq<Id>)
    ensures |ids| == |docs|
    decreases |docs|
  {
    if docs == [] then [] else [docs[0].id] + Ids(docs[1..])
  }

  lemma {:induction false} IdsAt(docs: seq<Document>, i: nat)
    requires i < |docs|
    ensures Ids(docs)[i] == docs[i].id
    decreases |docs|
  {
    if i > 0 {
      IdsAt(docs[1..], i - 1);
    }
  }

  /** No two documents share an id, as the store guarantees for `_id`. */
  predicate UniqueIds(docs: seq<Document>) {
    forall i, j :: 0 <= i < j < |docs| ==> docs[i].id != docs[j].id
  }

  /** `find_one({"_id": id})`: the first document with that id, if any. */
  function Lookup(docs: seq<Document>, id: Id): (r: Option<Student>)
    ensures r.None? <==> id !in Ids(docs)
    ensures r.Some? ==> exists i :: 0 <= i < |docs| && docs[i].id == id && docs[i].student == r.value
    decreases |docs|
  {
    if docs == [] then None
    else if docs[0].id == id then Some(docs[0].student)
    else
      var r := Lookup(docs[1..], id);
      assert r.Some? ==> exists i :: 0 <= i < |docs| && docs[i].id == id && docs[i].student == r.value by {
        if r.Some? {
          var i :| 0 <= i < |docs[1..]| && docs[1..][i].id == id && docs[1..][i].student == r.value;
          assert docs[i + 1] == docs[1..][i];
        }
      }
      r
  }

  /** With unique ids, the lookup of a stored id finds that document. */
  lemma {:induction false} LookupAt(docs: seq<Document>, i: nat)
    requires UniqueIds(docs) && i < |docs|
    ensures Lookup(docs, docs[i].id) == Some(docs[i].student)
    decreases |docs|
  {
    if i > 0 {
      assert docs[0].id != docs[i].id;
      assert docs[1..][i - 1] == docs[i];
      LookupAt(docs[1..], i - 1);
    }
  }

  /** The position of the first document with that id. */
  function IndexOf(docs: seq<Document>, id: Id): (i: nat)
    requires id in Ids(docs)
    ensures i < |docs| && docs[i].id == id
    ensures forall j :: 0 <= j < i ==> docs[j].id != id
    decreases |docs|
  {
    if docs[0].id == id then 0 else 1 + IndexOf(docs[1..], id)
  }

  /** `update_one`: the first document with that id gets the new student. */
  function Replace(docs: seq<Document>, id: Id, s: Student): (r: seq<Document>)
    decreases |docs|
  {
    if docs == [] then []
    else if docs[0].id == id then [Document(id, s)] + docs[1..]
    else [docs[0]] + Replace(docs[1..], id, s)
  }

  /** `delete_one`: the first document with that id is gone. */
  function Remove(docs: seq<Document>, id: Id): (r: seq<Document>)
    decreases |docs|
  {
    if docs == [] then []
    else if docs[0].id == id then docs[1..]
    else [docs[0]] + Remove(docs[1..], id)
  }

  /** Replace overwrites the document at the id's position and nothing else. */
  lemma {:induction false} ReplaceAt(docs: seq<Document>, id: Id, s: Student)
    requires id in Ids(docs)
    ensures Replace(docs, id, s) == docs[IndexOf(docs, id) := Document(id, s)]
    decreases |docs|
  {
    if docs[0].id != id {
      assert Ids(docs) == [docs[0].id] + Ids(docs[1..]);
      ReplaceAt(docs[1..], id, s);
      var i := IndexOf(docs[1..], id);
      assert IndexOf(docs, id) == i + 1;
      assert [docs[0]] + docs[1..][i := Document(id, s)] == docs[i + 1 := Document(id, s)];
    }
  }

  /** Replace of an id the collection does not hold changes nothing. */
  lemma {:induction false} ReplaceAbsent(docs: seq<Document>, id: Id, s: Student)
    requires id !in Ids(docs)
    ensures Replace(docs, id, s) == docs
    decreases |docs|
  {
    if docs != [] {
      ReplaceAbsent(docs[1..], id, s);
    }
  }

  /** Remove shortens the collection by one and shifts the documents after the id's position down. */
  lemma {:induction false} RemoveAtIndex(docs: seq<Document>, id: Id, k: nat)
    requires id in Ids(docs)
    ensures |Remove(docs, id)| == |docs| - 1
    ensures k < |docs| - 1 ==> Remove(docs, id)[k] == if k < IndexOf(docs, id) then docs[k] else docs[k + 1]
    decreases |docs|
  {
    if docs[0].id != id {
      assert Ids(docs) == [docs[0].id] + Ids(docs[1..]);
      RemoveAtIndex(docs[1..], id, if k == 0 then 0 else k - 1);
    }
  }

  /** Remove cuts out the document at the id's position and keeps the rest in order. */
  lemma RemoveAt(docs: seq<Document>, id: Id)
    requires id in Ids(docs)
    ensures var i := IndexOf(docs, id); Remove(docs, id) == docs[..i] + docs[i + 1..]
  {
    var i := IndexOf(docs, id);
    var r, cut := Remove(docs, id), docs[..i] + docs[i + 1..];
    RemoveAtIndex(docs, id, 0);
    forall k | 0 <= k < |r| ensures r[k] == cut[k] {
      RemoveAtIndex(docs, id, k);
    }
  }

  /**
   * With unique ids, updating a stored document changes exactly that entry:
   * the id now finds the new student, every other id finds what it found, and
   * the ids keep their order.
   */
  lemma ReplaceChangesOne(docs: seq<Document>, id: Id, s: Student, other: Id)
    requires UniqueIds(docs) && id in Ids(docs)
    ensures Ids(Replace(docs, id, s)) == Ids(docs)
    ensures UniqueIds(Replace(docs, id, s))
    ensures Lookup(Replace(docs, id, s), id) == Some(s)
    ensures other != id ==> Lookup(Replace(docs, id, s), other) == Lookup(docs, other)
  {
    ReplaceAt(docs, id, s);
    var i := IndexOf(docs, id);
    var r := Replace(docs, id, s);
    forall k | 0 <= k < |r| ensures Ids(r)[k] == Ids(docs)[k] {
      IdsAt(r, k);
      IdsAt(docs, k);
    }
    LookupAt(r, i);
    if other != id && other in Ids(docs) {
      var j := IndexOf(docs, other);
      LookupAt(docs, j);
      LookupAt(r, j);
    }
  }

  /** Remove of an id the collection does not hold changes nothing. */
  lemma {:induction false} RemoveAbsent(docs: seq<Document>, id: Id)
    requires id !in Ids(docs)
    ensures Remove(docs, id) == docs
    decreases |docs|
  {
    if docs != [] {
      RemoveAbsent(docs[1..], id);
    }
  }

  /** The ids left after a delete are the other ids, still unique. */
  lemma RemoveIds(docs: seq<Document>, id: Id)
    requires UniqueIds(docs) && id in Ids(docs)
    ensures UniqueIds(Remove(docs, id))
    ensures id !in Ids(Remove(docs, id))
  {
    var i := IndexOf(docs, id);
    var r := Remove(docs, id);
    RemoveAtIndex(docs, id, 0);
    forall a, b | 0 <= a < b < |r| ensures r[a].id != r[b].id {
      RemoveAtIndex(docs, id, a);
      RemoveAtIndex(docs, id, b);
    }
    forall k | 0 <= k < |r| ensures Ids(r)[k] != id {
      IdsAt(r, k);
      RemoveAtIndex(docs, id, k);
    }
  }

  /** A delete leaves the lookup of every other id as it was. */
  lemma {:induction false} RemoveKeepsOthers(docs: seq<Document>, id: Id, other: Id)
    requires other != id
    ensures Lookup(Remove(docs, id), other) == Lookup(docs, other)
    decreases |docs|
  {
    if docs != [] && docs[0].id != id {
      RemoveKeepsOthers(docs[1..], id, other);
      assert Remove(docs, id)[1..] == Remove(docs[1..], id);
    }
  }

  /**
   * With unique ids, deleting a stored document removes exactly that id: it is
   * found no longer, one document fewer remains, and every other id finds what
   * it found.
   */
  lemma RemoveExactlyOne(docs: seq<Document>, id: Id, other: Id)
    requires UniqueIds(docs) && id in Ids(docs)
    ensures UniqueIds(Remove(docs, id))
    ensures |Remove(docs, id)| == |docs| - 1
    ensures Lookup(Remove(docs, id), id) == None
    ensures other != id ==> Lookup(Remove(docs, id), other) == Lookup(docs, other)
  {
    RemoveAtIndex(docs, id, 0);
    RemoveIds(docs, id);
    if other != id {
      RemoveKeepsOthers(docs, id, other);
    }
  }

  // ---------------------------------------------------------------------------
  // Listing (src/main.py:112-119)

  /** `[s for s in docs if s["address"]["country"] == country]`. */
  function InCountry(docs: seq<Document>, country: string): seq<Document>
    decreases |docs|
  {
    if docs == [] then []
    else (if docs[0].student.address.country == country then [docs[0]] else []) + InCountry(docs[1..], country)
  }

  /** `[{"name": s["name"], "age": s["age"]} for s in docs if s["age"] >= age]`. */
  function ProjectFrom(docs: seq<Document>, age: int): seq<Summary>
    decreases |docs|
  {
    if docs == [] then []
    else
      var s := docs[0].student;
      (if s.age >= age then [Summary(s.name, s.age)] else []) + ProjectFrom(docs[1..], age)
  }

  /** The listing: the optional country filter, then the age filter and projection. */
  function ListStudents(docs: seq<Document>, country: Option<string>, age: int): seq<Summary> {
    ProjectFrom(if country.Some? then InCountry(docs, country.value) else docs, age)
  }

  /** Whether a stored student passes both filters of the listing. */
  predicate Listed(s: Student, country: Option<string>, age: int) {
    (country.None? || s.address.country == country.value) && s.age >= age
  }

  function Summarize(s: Student): Summary {
    Summary(s.name, s.age)
  }

  /** The listing of a concatenation is the concatenation of the listings: order is kept. */
  lemma ListConcat(d1: seq<Document>, d2: seq<Document>, country: Option<string>, age: int)
    ensures ListStudents(d1 + d2, country, age) == ListStudents(d1, country, age) + ListStudents(d2, country, age)
  {
    if country.Some? {
      InCountryConcat(d1, d2, country.value);
      ProjectConcat(InCountry(d1, country.value), InCountry(d2, country.value), age);
    } else {
      ProjectConcat(d1, d2, age);
    }
  }

  lemma {:induction false} InCountryConcat(d1: seq<Document>, d2: seq<Document>, country: string)
    ensures InCountry(d1 + d2, country) == InCountry(d1, country) + InCountry(d2, country)
    decreases |d1|
  {
    if d1 != [] {
      assert (d1 + d2)[0] == d1[0] && (d1 + d2)[1..] == d1[1..] + d2;
      InCountryConcat(d1[1..], d2, country);
    } else {
      assert d1 + d2 == d2;
    }
  }

  lemma {:induction false} ProjectConcat(d1: seq<Document>, d2: seq<Document>, age: int)
    ensures ProjectFrom(d1 + d2, age) == ProjectFrom(d1, age) + ProjectFrom(d2, age)
    decreases |d1|
  {
    if d1 != [] {
      assert (d1 + d2)[0] == d1[0] && (d1 + d2)[1..] == d1[1..] + d2;
      ProjectConcat(d1[1..], d2, age);
    } else {
      assert d1 + d2 == d2;
    }
  }

  /** A single document is listed, as its `{name, age}`, exactly when it passes both filters. */
  lemma ListSingle(d: Document, country: Option<string>, age: int)
    ensures ListStudents([d], country, age) == if Listed(d.student, country, age) then [Summarize(d.student)] else []
  {
    assert [d][1..] == [];
    if country.Some? {
      var head := if d.student.address.country == country.value then [d] else [];
      assert InCountry([d], country.value) == head + InCountry([], country.value) == head + [] == head;
    }
    var projected := if d.student.age >= age then [Summarize(d.student)] else [];
    assert ProjectFrom([d], age) == projected + ProjectFrom([], age) == projected + [] == projected;
  }

  /**
   * A summary is in the listing exactly when some stored student passes both
   * filters and projects to it.
   */
  lemma {:induction false} ListMembership(docs: seq<Document>, country: Option<string>, age: int, x: Summary)
    ensures x in ListStudents(docs, country, age) <==>
      exists i :: 0 <= i < |docs| && Listed(docs[i].student, country, age) && x == Summarize(docs[i].student)
    decreases |docs|
  {
    if docs != [] {
      assert docs == [docs[0]] + docs[1..];
      ListConcat([docs[0]], docs[1..], country, age);
      ListSingle(docs[0], country, age);
      ListMembership(docs[1..], country, age, x);
      if exists i :: 0 <= i < |docs| && Listed(docs[i].student, country, age) && x == Summarize(docs[i].student) {
        var i :| 0 <= i < |docs| && Listed(docs[i].student, country, age) && x == Summarize(docs[i].student);
        if i > 0 {
          assert docs[1..][i - 1] == docs[i];
        }
      }
      if exists i :: 0 <= i < |docs[1..]| && Listed(docs[1..][i].student, country, age) && x == Summarize(docs[1..][i].student) {
        var i :| 0 <= i < |docs[1..]| && Listed(docs[1..][i].student, country, age) && x == Summarize(docs[1..][i].student);
        assert docs[i + 1] == docs[1..][i];
      }
    }
  }
}
