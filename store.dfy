/** The hosted database, replaced by an in-memory store: the `schools`,
    `students` and `registrations` tables with the foreign keys that tie them,
    the status column's enumeration, and the joined row the listing returns. */
module Store {

  import opened Options
  import opened JsValues

  type Id = string

  /** The `status` column: `'pending' | 'approved' | 'rejected'`. */
  datatype Status = Pending | Approved | Rejected

  function StatusName(s: Status): string {
    match s
    case Pending => "pending"
    case Approved => "approved"
    case Rejected => "rejected"
  }

  /** `['pending', 'approved', 'rejected'].includes(status)`: strict equality,
      so only those three strings name a status. */
  function ParseStatus(v: Option<Json>): (r: Option<Status>)
    ensures r.Some? ==> v == Some(JStr(StatusName(r.value)))
    ensures r.None? ==> forall s: Status :: v != Some(JStr(StatusName(s)))
  {
    if v == Some(JStr("pending")) then Some(Pending)
    else if v == Some(JStr("approved")) then Some(Approved)
    else if v == Some(JStr("rejected")) then Some(Rejected)
    else None
  }

  /** A row of `schools`; not created by the registration workflow. */
  datatype School = School(name: string, address: string)

  /** A row of `students`, keyed by its id in the table. The submitted form
      values are stored as they arrived. */
  datatype Student = Student(
    firstName: Json,
    lastName: Json,
    email: Json,
    phone: Json,
    schoolId: Json,
    grade: Json,
    projectTitle: Json,
    projectDescription: Json,
    category: Json,
    createdAt: int)

  /** A row of `registrations`. */
  datatype Registration = Registration(id: Id, studentId: Id, status: Status, createdAt: int)

  /** The embedded `school (name)` of a listed row. */
  datatype SchoolSummary = SchoolSummary(name: string)

  /** The embedded `student (...)` of a listed row. */
  datatype StudentSummary = StudentSummary(
    firstName: Json,
    lastName: Json,
    email: Json,
    projectTitle: Json,
    category: Json,
    school: SchoolSummary)

  /** A registration as the listing returns it and the dashboard holds it: its
      own columns plus the embedded student and school. */
  datatype RegistrationView = RegistrationView(
    id: Id,
    studentId: Id,
    status: Status,
    createdAt: int,
    student: StudentSummary)

  /** The three tables at one moment. */
  datatype Tables = Tables(
    schools: map<Id, School>,
    students: map<Id, Student>,
    registrations: seq<Registration>)

  /** `school_id` refers to a stored school. */
  predicate NamesSchool(v: Json, schools: map<Id, School>) {
    v.JStr? && v.s in schools
  }

  predicate UniqueIds(rows: seq<Registration>) {
    forall i, j | 0 <= i < j < |rows| :: rows[i].id != rows[j].id
  }

  function IdsOf(rows: seq<Registration>): (ids: set<Id>)
    ensures forall r | r in rows :: r.id in ids
    ensures forall id | id in ids :: exists r | r in rows :: r.id == id
  {
    set r | r in rows :: r.id
  }

  /** The database's integrity constraints: both foreign keys hold and
      registration ids are unique. */
  ghost predicate Consistent(t: Tables) {
    && (forall sid | sid in t.students :: NamesSchool(t.students[sid].schoolId, t.schools))
    && (forall r | r in t.registrations :: r.studentId in t.students)
    && UniqueIds(t.registrations)
  }

  /** A registration whose student and school rows can be embedded. */
  predicate Joinable(r: Registration, t: Tables) {
    r.studentId in t.students && NamesSchool(t.students[r.studentId].schoolId, t.schools)
  }

  /** The registration with its student and school embedded. */
  function ViewOf(r: Registration, t: Tables): (v: RegistrationView)
    requires Joinable(r, t)
    ensures Columns(v) == r
    ensures v.student.email == t.students[r.studentId].email
  {
    var s := t.students[r.studentId];
    RegistrationView(r.id, r.studentId, r.status, r.createdAt,
      StudentSummary(s.firstName, s.lastName, s.email, s.projectTitle, s.category,
        SchoolSummary(t.schools[s.schoolId.s].name)))
  }

  /** The registration's own columns of a listed row. */
  function Columns(v: RegistrationView): Registration {
    Registration(v.id, v.studentId, v.status, v.createdAt)
  }

  /** `update({ status }).eq('id', id)` on the table: the rows whose id is `id`
      take the new status; every other row, every other column and the order
      are kept. */
  function WithStatus(rows: seq<Registration>, id: Id, status: Status): (out: seq<Registration>)
    ensures |out| == |rows|
    ensures forall i | 0 <= i < |rows| && rows[i].id == id :: out[i] == rows[i].(status := status)
    ensures forall i | 0 <= i < |rows| && rows[i].id != id :: out[i] == rows[i]
  {
    if rows == [] then []
    else [if rows[0].id == id then rows[0].(status := status) else rows[0]]
         + WithStatus(rows[1..], id, status)
  }

  /** The position of the row with id `id`, if there is one. */
  function Find(rows: seq<Registration>, id: Id): (k: Option<nat>)
    ensures k.Some? ==> k.value < |rows| && rows[k.value].id == id
    ensures k.None? <==> id !in IdsOf(rows)
  {
    if rows == [] then None
    else if rows[0].id == id then Some(0)
    else match Find(rows[1..], id)
      case None => None
      case Some(k) => Some(k + 1)
  }

  /** Overwriting a status a second time with the same value changes nothing:
      the update is idempotent. */
  lemma WithStatusIdempotent(rows: seq<Registration>, id: Id, status: Status)
    ensures WithStatus(WithStatus(rows, id, status), id, status) == WithStatus(rows, id, status)
  {
  }

  /** Two updates of the same row: the later status wins, whatever the earlier was. */
  lemma WithStatusLastWins(rows: seq<Registration>, id: Id, first: Status, second: Status)
    ensures WithStatus(WithStatus(rows, id, first), id, second) == WithStatus(rows, id, second)
  {
  }

  /** The update keeps every id, so it keeps the ids unique and the foreign key
      of every row. */
  lemma WithStatusKeepsConsistency(t: Tables, id: Id, status: Status)
    requires Consistent(t)
    ensures Consistent(t.(registrations := WithStatus(t.registrations, id, status)))
  {
  }

  /** The longest id in a set, so that a longer string is unused. */
  ghost function LongestLength(ids: set<Id>): (n: nat)
    ensures forall id | id in ids :: |id| <= n
    decreases ids
  {
    if ids == {} then 0
    else
      var id :| id in ids;
      var rest := LongestLength(ids - {id});
      if |id| > rest then |id| else rest
  }

  /** Some id is not yet in use: the database can always generate a new key. */
  lemma UnusedIdExists(used: set<Id>) returns (newId: Id)
    ensures newId !in used
  {
    newId := seq(LongestLength(used) + 1, _ => 'x');
  }

  /** The database. Its methods are the inserts and the update the handlers
      issue; `fails` stands for a backend error the program cannot foresee, `now`
      for the database clock that fills `created_at`. */
  class Database {
    var schools: map<Id, School>
    var students: map<Id, Student>
    var registrations: seq<Registration>

    function Snapshot(): Tables
      reads this
    {
      Tables(schools, students, registrations)
    }

    ghost predicate Valid()
      reads this
    {
      Consistent(Snapshot())
    }

    /** A database holding the given schools and no student or registration. */
    constructor (schools: map<Id, School>)
      ensures Valid()
      ensures this.schools == schools && students == map[] && registrations == []
    {
      this.schools := schools;
      students := map[];
      registrations := [];
    }

    /** `insert([student]).select().single()` on `students`. It fails on a backend
        error or when `school_id` names no school (the foreign key); otherwise the
        row is stored under a new id, which is returned. */
    method InsertStudent(s: Student, fails: bool) returns (id: Option<Id>)
      requires Valid()
      modifies this
      ensures Valid()
      ensures schools == old(schools) && registrations == old(registrations)
      ensures id.None? <==> fails || !NamesSchool(s.schoolId, schools)
      ensures id.None? ==> students == old(students)
      ensures id.Some? ==> id.value !in old(students) && students == old(students)[id.value := s]
    {
      if fails || !NamesSchool(s.schoolId, schools) {
        return None;
      }
      ghost var spare := UnusedIdExists(students.Keys);
      var newId: Id :| newId !in students;
      students := students[newId := s];
      id := Some(newId);
    }

    /** `insert([{ student_id, status }]).select().single()` on `registrations`. It
        fails on a backend error or when the student does not exist; otherwise a
        row with a new id and `created_at = now` is appended and returned. */
    method InsertRegistration(studentId: Id, status: Status, now: int, fails: bool)
      returns (row: Option<Registration>)
      requires Valid()
      modifies this
      ensures Valid()
      ensures schools == old(schools) && students == old(students)
      ensures row.None? <==> fails || studentId !in students
      ensures row.None? ==> registrations == old(registrations)
      ensures row.Some? ==>
                && row.value.id !in IdsOf(old(registrations))
                && row.value == Registration(row.value.id, studentId, status, now)
                && registrations == old(registrations) + [row.value]
    {
      if fails || studentId !in students {
        return None;
      }
      ghost var spare := UnusedIdExists(IdsOf(registrations));
      var newId: Id :| newId !in IdsOf(registrations);
      var r := Registration(newId, studentId, status, now);
      registrations := registrations + [r];
      row := Some(r);
    }

    /** `update({ status }).eq('id', target).select().single()` on
        `registrations`. The filter compares the id column with `target`, so only
        a JSON string equal to a stored id matches; `.single()` fails unless one
        row matched. On success that row alone takes the new status and the
        updated row is returned. */
    method UpdateStatus(target: Json, status: Status, fails: bool) returns (row: Option<Registration>)
      requires Valid()
      modifies this
      ensures Valid()
      ensures schools == old(schools) && students == old(students)
      ensures row.None? <==> fails || !target.JStr? || target.s !in IdsOf(old(registrations))
      ensures row.None? ==> registrations == old(registrations)
      ensures row.Some? ==>
                && registrations == WithStatus(old(registrations), target.s, status)
                && row.value in registrations
                && row.value.id == target.s && row.value.status == status
    {
      if fails || !target.JStr? {
        return None;
      }
      var k := Find(registrations, target.s);
      if k.None? {
        return None;
      }
      WithStatusKeepsConsistency(Snapshot(), target.s, status);
      registrations := WithStatus(registrations, target.s, status);
      row := Some(registrations[k.value]);
    }
  }

}
