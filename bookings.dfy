/** The `bookings` collection as the home page, the student dashboard and
    the booking dialog read it: each document becomes a plain record whose
    `id` is the document id unless the document's data carries an `id` of
    its own, and the seats left are the capacity minus the seats taken. */
module Bookings {
  import opened Common

  /** An entry of a booking's `students` array. */
  datatype Student = Student(id: string, name: string, email: string)

  /** The fields a booking document holds. `id` is present only when the
      document data stores one; `students` is absent on a document that
      was written without it. */
  datatype BookingData = BookingData(
    id: Option<string>,
    classType: string,
    instructorId: string,
    instructorName: string,
    date: string,
    startTime: string,
    endTime: string,
    studentsBooked: int,
    maxStudents: int,
    students: Option<seq<Student>>)

  /** A snapshot document: its id and its data. */
  datatype Doc = Doc(docId: string, data: BookingData)

  /** `{ id: doc.id, ...doc.data() }`: the record the components hold. */
  datatype Booking = Booking(id: string, data: BookingData)

  /** The spread comes after `id: doc.id`, so an `id` in the data wins. */
  function ToRecord(doc: Doc): (b: Booking)
    ensures b.data == doc.data
    ensures b.id == (if doc.data.id.Some? then doc.data.id.value else doc.docId)
  {
    Booking(if doc.data.id.Some? then doc.data.id.value else doc.docId, doc.data)
  }

  /** `snapshot.docs.map(...)`. */
  function ToRecords(docs: seq<Doc>): (records: seq<Booking>)
    ensures |records| == |docs|
    ensures forall i :: 0 <= i < |docs| ==> records[i] == ToRecord(docs[i])
  {
    if docs == [] then [] else [ToRecord(docs[0])] + ToRecords(docs[1..])
  }

  predicate DistinctDocIds(docs: seq<Doc>)
  {
    forall i, j :: 0 <= i < j < |docs| ==> docs[i].docId != docs[j].docId
  }

  predicate DistinctIds(records: seq<Booking>)
  {
    forall i, j :: 0 <= i < j < |records| ==> records[i].id != records[j].id
  }

  /** The records' ids, used as React keys, are distinct when the documents'
      ids are and no document data carries an `id` field. */
  lemma RecordIdsDistinct(docs: seq<Doc>)
    requires DistinctDocIds(docs)
    requires forall i :: 0 <= i < |docs| ==> docs[i].data.id.None?
    ensures DistinctIds(ToRecords(docs))
  {
  }

  /** A data `id` equal to another document's id makes two records share a
      key although the document ids differ. */
  lemma DataIdCanCollide(a: Doc, b: Doc)
    requires a.docId != b.docId
    requires a.data.id == Some(b.docId) && b.data.id.None?
    ensures !DistinctIds(ToRecords([a, b]))
  {
    var records := ToRecords([a, b]);
    assert records[0].id == b.docId == records[1].id;
  }

  /** `maxStudents - studentsBooked` (`calculateAvailableSeats` on the home
      page, inline in the booking dialog), not clamped: an overbooked class has
      a negative count. */
  function AvailableSeats(b: Booking): (seats: int)
    ensures seats <= 0 <==> b.data.studentsBooked >= b.data.maxStudents
    ensures seats + b.data.studentsBooked == b.data.maxStudents
  {
    b.data.maxStudents - b.data.studentsBooked
  }
}
