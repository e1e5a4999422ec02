/** The student registry (`tbl_students`) and the handlers that change it:
    create with required-field and room checks, update by merging the
    supplied fields over the stored ones, delete one row, and the paginated
    listing. Room data (`tbl_room`) is read-only here. */
module Students {
  import opened Common
  import Pagination

  /** One row of `tbl_students`. Columns the insert may leave NULL are options. */
  datatype Student = Student(
    id: int,
    name: string,
    cnic: string,
    admissionDate: string,
    basicRent: int,
    contactNo: string,
    bloodGroup: Option<string>,
    address: Option<string>,
    secondaryContactNo: string,
    email: Option<string>,
    picture: Option<string>,
    cnicFront: Option<string>,
    cnicBack: Option<string>,
    roomNumber: int,
    description: Option<string>,
    securityFee: Option<int>)

  /** One row of `tbl_room`: its key and its displayed number are different columns. */
  datatype Room = Room(roomId: int, roomNumber: int)

  /** The request body of the create and update handlers, every field optional. */
  datatype StudentForm = StudentForm(
    name: Option<string>,
    cnic: Option<string>,
    admissionDate: Option<string>,
    basicRent: Option<int>,
    contactNo: Option<string>,
    bloodGroup: Option<string>,
    address: Option<string>,
    secondaryContactNo: Option<string>,
    email: Option<string>,
    picture: Option<string>,
    cnicFront: Option<string>,
    cnicBack: Option<string>,
    roomNumber: Option<int>,
    description: Option<string>,
    securityFee: Option<int>)

  datatype ImageKind = PictureImage | CnicFrontImage | CnicBackImage

  /** The image store: uploads the encoded image of the given kind into the
      student's folder and gives its URL, or None when the upload throws. */
  type Uploader = (ImageKind, int, string) -> Option<string>

  /** `SELECT * FROM tbl_students WHERE stdID = ?`, first row. */
  function Lookup(rows: seq<Student>, id: int): (r: Option<Student>)
    ensures r.None? <==> forall i :: 0 <= i < |rows| ==> rows[i].id != id
    ensures r.Some? ==> r.value in rows && r.value.id == id
  {
    if rows == [] then None
    else if rows[0].id == id then Some(rows[0])
    else Lookup(rows[1..], id)
  }

  /** Position of the row with the given id, if any. */
  function IndexOf(rows: seq<Student>, id: int): (r: Option<nat>)
    ensures r.None? <==> forall i :: 0 <= i < |rows| ==> rows[i].id != id
    ensures r.Some? ==> r.value < |rows| && rows[r.value].id == id
    ensures r.Some? ==> forall i :: 0 <= i < r.value ==> rows[i].id != id
  {
    if rows == [] then None
    else if rows[0].id == id then Some(0)
    else match IndexOf(rows[1..], id)
      case None => None
      case Some(k) => Some(k + 1)
  }

  /** The check of create: `SELECT * FROM tbl_room WHERE roomID = ?`. */
  predicate RoomWithId(rooms: seq<Room>, id: int) {
    exists i :: 0 <= i < |rooms| && rooms[i].roomId == id
  }

  /** The check of update: `SELECT * FROM tbl_room WHERE roomNumber = ?`. */
  predicate RoomWithNumber(rooms: seq<Room>, number: int) {
    exists i :: 0 <= i < |rooms| && rooms[i].roomNumber == number
  }

  /** The seven fields create insists on, each truthy. */
  predicate RequiredGiven(f: StudentForm) {
    && GivenText(f.name) && GivenText(f.cnic) && GivenText(f.admissionDate)
    && Given(f.basicRent) && GivenText(f.contactNo) && GivenText(f.secondaryContactNo)
    && Given(f.roomNumber)
  }

  /** The row that the insert of create writes; the images are NULL until the
      follow-up update stores their URLs. */
  function Inserted(id: int, f: StudentForm): (s: Student)
    requires RequiredGiven(f)
    ensures s.id == id && s.picture.None? && s.cnicFront.None? && s.cnicBack.None?
  {
    Student(id, f.name.value, f.cnic.value, f.admissionDate.value, f.basicRent.value,
      f.contactNo.value, f.bloodGroup, f.address, f.secondaryContactNo.value, f.email,
      None, None, None, f.roomNumber.value, f.description, f.securityFee)
  }

  /** An image field after an upload step: a truthy image is uploaded
      (None if that throws), no image keeps `keep`. */
  function UploadOr(upload: Uploader, kind: ImageKind, id: int, image: Option<string>, keep: Option<string>): (r: Option<Option<string>>)
    ensures !GivenText(image) ==> r == Some(keep)
    ensures GivenText(image) ==> (r.Some? <==> upload(kind, id, image.value).Some?)
    ensures GivenText(image) && r.Some? ==> r.value == upload(kind, id, image.value)
  {
    if GivenText(image) then
      match upload(kind, id, image.value)
      case None => None
      case Some(url) => Some(Some(url))
    else Some(keep)
  }

  /** The three image URLs after the uploads, in the handler's order; None
      when any upload throws. */
  function Images(upload: Uploader, id: int, f: StudentForm, keep: Student): (r: Option<(Option<string>, Option<string>, Option<string>)>)
    ensures r.Some? <==> (UploadOr(upload, PictureImage, id, f.picture, keep.picture).Some?
                          && UploadOr(upload, CnicFrontImage, id, f.cnicFront, keep.cnicFront).Some?
                          && UploadOr(upload, CnicBackImage, id, f.cnicBack, keep.cnicBack).Some?)
    ensures r.Some? ==>
      && r.value.0 == UploadOr(upload, PictureImage, id, f.picture, keep.picture).value
      && r.value.1 == UploadOr(upload, CnicFrontImage, id, f.cnicFront, keep.cnicFront).value
      && r.value.2 == UploadOr(upload, CnicBackImage, id, f.cnicBack, keep.cnicBack).value
  {
    var p := UploadOr(upload, PictureImage, id, f.picture, keep.picture);
    var front := UploadOr(upload, CnicFrontImage, id, f.cnicFront, keep.cnicFront);
    var back := UploadOr(upload, CnicBackImage, id, f.cnicBack, keep.cnicBack);
    if p.Some? && front.Some? && back.Some? then Some((p.value, front.value, back.value)) else None
  }

  /** The URL `UPDATE`: the three image columns take the uploaded URLs and
      every other column is kept. */
  function WithImages(s: Student, images: (Option<string>, Option<string>, Option<string>)): (r: Student)
    ensures (r.picture, r.cnicFront, r.cnicBack) == images
    ensures r.(picture := s.picture, cnicFront := s.cnicFront, cnicBack := s.cnicBack) == s
  {
    s.(picture := images.0, cnicFront := images.1, cnicBack := images.2)
  }

  /** `provided || existing` on a text column. */
  function OrText(provided: Option<string>, existing: string): string {
    if GivenText(provided) then provided.value else existing
  }

  /** `provided || existing` on a nullable text column. */
  function OrNullableText(provided: Option<string>, existing: Option<string>): Option<string> {
    if GivenText(provided) then provided else existing
  }

  /** `provided || existing` on a numeric column. */
  function OrNumber(provided: Option<int>, existing: int): int {
    if Given(provided) then provided.value else existing
  }

  /** `provided || existing` on a nullable numeric column. */
  function OrNullableNumber(provided: Option<int>, existing: Option<int>): Option<int> {
    if Given(provided) then provided else existing
  }

  /** The row update writes: every column is the supplied value when that is
      truthy and the stored value otherwise; the id and the images (already
      settled by the uploads) are given. */
  function Merge(existing: Student, f: StudentForm, images: (Option<string>, Option<string>, Option<string>)): (s: Student)
    ensures s.id == existing.id
    ensures s.name == (if GivenText(f.name) then f.name.value else existing.name)
    ensures s.cnic == (if GivenText(f.cnic) then f.cnic.value else existing.cnic)
    ensures s.admissionDate == (if GivenText(f.admissionDate) then f.admissionDate.value else existing.admissionDate)
    ensures s.basicRent == (if Given(f.basicRent) then f.basicRent.value else existing.basicRent)
    ensures s.contactNo == (if GivenText(f.contactNo) then f.contactNo.value else existing.contactNo)
    ensures s.bloodGroup == (if GivenText(f.bloodGroup) then f.bloodGroup else existing.bloodGroup)
    ensures s.address == (if GivenText(f.address) then f.address else existing.address)
    ensures s.secondaryContactNo == (if GivenText(f.secondaryContactNo) then f.secondaryContactNo.value else existing.secondaryContactNo)
    ensures s.email == (if GivenText(f.email) then f.email else existing.email)
    ensures (s.picture, s.cnicFront, s.cnicBack) == images
    ensures s.roomNumber == (if Given(f.roomNumber) then f.roomNumber.value else existing.roomNumber)
    ensures s.securityFee == (if Given(f.securityFee) then f.securityFee else existing.securityFee)
    ensures s.description == (if GivenText(f.description) then f.description else existing.description)
  {
    Student(existing.id,
      OrText(f.name, existing.name),
      OrText(f.cnic, existing.cnic),
      OrText(f.admissionDate, existing.admissionDate),
      OrNumber(f.basicRent, existing.basicRent),
      OrText(f.contactNo, existing.contactNo),
      OrNullableText(f.bloodGroup, existing.bloodGroup),
      OrNullableText(f.address, existing.address),
      OrText(f.secondaryContactNo, existing.secondaryContactNo),
      OrNullableText(f.email, existing.email),
      images.0, images.1, images.2,
      OrNumber(f.roomNumber, existing.roomNumber),
      OrNullableText(f.description, existing.description),
      OrNullableNumber(f.securityFee, existing.securityFee))
  }

  /** An update whose form supplies nothing truthy and no image rewrites the
      row with its own values. */
  lemma EmptyFormKeepsRow(existing: Student, f: StudentForm, upload: Uploader)
    requires !GivenText(f.name) && !GivenText(f.cnic) && !GivenText(f.admissionDate) && !Given(f.basicRent)
    requires !GivenText(f.contactNo) && !GivenText(f.bloodGroup) && !GivenText(f.address)
    requires !GivenText(f.secondaryContactNo) && !GivenText(f.email) && !Given(f.roomNumber)
    requires !Given(f.securityFee) && !GivenText(f.description)
    requires !GivenText(f.picture) && !GivenText(f.cnicFront) && !GivenText(f.cnicBack)
    ensures Images(upload, existing.id, f, existing) == Some((existing.picture, existing.cnicFront, existing.cnicBack))
    ensures Merge(existing, f, Images(upload, existing.id, f, existing).value) == existing
  {
  }

  /** Removing the row at index k. */
  function RemoveAt(rows: seq<Student>, k: nat): (r: seq<Student>)
    requires k < |rows|
    ensures |r| == |rows| - 1
    ensures forall i :: 0 <= i < k ==> r[i] == rows[i]
    ensures forall i :: k <= i < |r| ==> r[i] == rows[i + 1]
  {
    rows[..k] + rows[k + 1..]
  }

  /** The auto-increment table `tbl_students`. */
  class StudentTable {
    var rows: seq<Student>
    var nextId: int

    /** Ids are positive, unique and below the next auto-increment value. */
    ghost predicate Valid()
      reads this
    {
      && nextId >= 1
      && (forall i :: 0 <= i < |rows| ==> 1 <= rows[i].id < nextId)
      && (forall i, j :: 0 <= i < j < |rows| ==> rows[i].id != rows[j].id)
    }

    constructor ()
      ensures Valid() && rows == [] && nextId == 1
    {
      rows := [];
      nextId := 1;
    }

    /** `getStudents`: one page of the table. */
    method GetStudents(page: Option<int>, pageSize: Option<int>) returns (r: Result<Pagination.Listing<Student>>)
      ensures r == Pagination.List(rows, page, pageSize)
    {
      r := Pagination.List(rows, page, pageSize);
    }

    /** `createStudent`: validate, check the room by its id, insert, then
        upload the images and store their URLs. The insert happens before the
        uploads, so a failed upload leaves the new row without images. */
    method CreateStudent(f: StudentForm, rooms: seq<Room>, upload: Uploader) returns (r: Result<int>)
      requires Valid()
      modifies this
      ensures Valid()
      ensures !RequiredGiven(f) ==> r == Err(BadRequest, MissingField)
      ensures RequiredGiven(f) && !RoomWithId(rooms, f.roomNumber.value) ==> r == Err(BadRequest, UnknownRoom)
      ensures r.Err? && r.cause != UploadFailed ==> rows == old(rows) && nextId == old(nextId)
      ensures RequiredGiven(f) && RoomWithId(rooms, f.roomNumber.value) ==>
        && nextId == old(nextId) + 1
        && var images := Images(upload, old(nextId), f, Inserted(old(nextId), f));
           if images.Some? then
             r == Ok(old(nextId)) && rows == old(rows) + [WithImages(Inserted(old(nextId), f), images.value)]
           else
             r == Err(ServerError, UploadFailed) && rows == old(rows) + [Inserted(old(nextId), f)]
    {
      if !RequiredGiven(f) {
        return Err(BadRequest, MissingField);
      }
      if !RoomWithId(rooms, f.roomNumber.value) {
        return Err(BadRequest, UnknownRoom);
      }
      var id := nextId;
      var row := Inserted(id, f);
      rows := rows + [row];
      nextId := nextId + 1;
      var images := Images(upload, id, f, row);
      if images.None? {
        return Err(ServerError, UploadFailed);
      }
      var k := |rows| - 1;
      rows := rows[k := WithImages(row, images.value)];
      assert rows == old(rows) + [WithImages(row, images.value)];
      r := Ok(id);
    }

    /** `updateStudent`: find the row, check a supplied room by its number,
        upload any new images and write the merged row in place. */
    method UpdateStudent(studentId: Option<int>, f: StudentForm, rooms: seq<Room>, upload: Uploader) returns (r: Result<int>)
      requires Valid()
      modifies this
      ensures Valid() && nextId == old(nextId)
      ensures !Given(studentId) ==> r == Err(BadRequest, MissingField)
      ensures Given(studentId) && Lookup(old(rows), studentId.value).None? ==> r == Err(NotFound, UnknownRecord)
      ensures (Given(studentId) && Lookup(old(rows), studentId.value).Some? && Given(f.roomNumber)
               && !RoomWithNumber(rooms, f.roomNumber.value)) ==> r == Err(BadRequest, UnknownRoom)
      ensures r.Err? ==> rows == old(rows)
      ensures r.Ok? ==>
        && Given(studentId) && r.value == studentId.value
        && var k := IndexOf(old(rows), studentId.value).value;
           var existing := old(rows)[k];
           var images := Images(upload, existing.id, f, existing);
           && images.Some?
           && rows == old(rows)[k := Merge(existing, f, images.value)]
      ensures (Given(studentId) && Lookup(old(rows), studentId.value).Some?
               && (Given(f.roomNumber) ==> RoomWithNumber(rooms, f.roomNumber.value))
               && Images(upload, studentId.value, f, Lookup(old(rows), studentId.value).value).Some?) ==> r.Ok?
      ensures (Given(studentId) && Lookup(old(rows), studentId.value).Some?
               && (Given(f.roomNumber) ==> RoomWithNumber(rooms, f.roomNumber.value))
               && Images(upload, studentId.value, f, Lookup(old(rows), studentId.value).value).None?)
              ==> r == Err(ServerError, UploadFailed)
    {
      if !Given(studentId) {
        return Err(BadRequest, MissingField);
      }
      var id := studentId.value;
      var at := IndexOf(rows, id);
      if at.None? {
        return Err(NotFound, UnknownRecord);
      }
      var k := at.value;
      var existing := rows[k];
      LookupIsIndexOf(rows, id);
      if Given(f.roomNumber) && !RoomWithNumber(rooms, f.roomNumber.value) {
        return Err(BadRequest, UnknownRoom);
      }
      var images := Images(upload, existing.id, f, existing);
      if images.None? {
        return Err(ServerError, UploadFailed);
      }
      rows := rows[k := Merge(existing, f, images.value)];
      r := Ok(id);
    }

    /** `deleteStudent`: remove the row with the given id. */
    method DeleteStudent(studentId: Option<int>) returns (r: Result<int>)
      requires Valid()
      modifies this
      ensures Valid() && nextId == old(nextId)
      ensures !Given(studentId) ==> r == Err(BadRequest, MissingField) && rows == old(rows)
      ensures Given(studentId) && Lookup(old(rows), studentId.value).None? ==> r == Err(NotFound, UnknownRecord) && rows == old(rows)
      ensures Given(studentId) && Lookup(old(rows), studentId.value).Some? ==>
        && r == Ok(studentId.value)
        && rows == RemoveAt(old(rows), IndexOf(old(rows), studentId.value).value)
        && Lookup(rows, studentId.value).None?
        && forall s :: s in old(rows) && s.id != studentId.value ==> s in rows
    {
      if !Given(studentId) {
        return Err(BadRequest, MissingField);
      }
      var id := studentId.value;
      var at := IndexOf(rows, id);
      LookupIsIndexOf(rows, id);
      if at.None? {
        return Err(NotFound, UnknownRecord);
      }
      var k := at.value;
      var before := rows;
      rows := RemoveAt(rows, k);
      RemoveAtKeepsOthers(before, k);
      r := Ok(id);
    }
  }

  lemma LookupIsIndexOf(rows: seq<Student>, id: int)
    ensures Lookup(rows, id).Some? <==> IndexOf(rows, id).Some?
    ensures IndexOf(rows, id).Some? ==> Lookup(rows, id).value == rows[IndexOf(rows, id).value]
  {
    if rows != [] && rows[0].id != id {
      LookupIsIndexOf(rows[1..], id);
    }
  }

  /** With unique ids, removing the row at k removes exactly the one row with its id. */
  lemma RemoveAtKeepsOthers(rows: seq<Student>, k: nat)
    requires k < |rows|
    requires forall i, j :: 0 <= i < j < |rows| ==> rows[i].id != rows[j].id
    ensures forall i :: 0 <= i < |RemoveAt(rows, k)| ==> RemoveAt(rows, k)[i].id != rows[k].id
    ensures forall s :: s in rows && s.id != rows[k].id ==> s in RemoveAt(rows, k)
  {
    var r := RemoveAt(rows, k);
    forall s | s in rows && s.id != rows[k].id
      ensures s in r
    {
      var i :| 0 <= i < |rows| && rows[i] == s;
      if i < k { assert r[i] == s; } else { assert r[i - 1] == s; }
    }
  }
}
