/** The `submit-registration` handler: method gate, required-field check in a
    fixed order, then a student insert followed by a registration insert, with
    no rollback between them. */
module Submission {

  import opened Options
  import opened JsValues
  import opened Store
  import opened Http

  /** The fields the form must carry, in the order they are checked. */
  const RequiredFields: seq<string> :=
    ["firstName", "lastName", "email", "phone", "school", "grade",
     "projectTitle", "projectDescription", "category"]

  /** The index of the first required field at or after `from` that `data` lacks
      (absent or falsy), or `|RequiredFields|` when all of them are there. */
  function FirstAbsentFrom(data: Json, from: nat): (k: nat)
    requires !data.JNull? && from <= |RequiredFields|
    ensures from <= k <= |RequiredFields|
    ensures forall j | from <= j < k :: Present(data, RequiredFields[j])
    ensures k < |RequiredFields| ==> !Present(data, RequiredFields[k])
    decreases |RequiredFields| - from
  {
    if from == |RequiredFields| || !Present(data, RequiredFields[from]) then from
    else FirstAbsentFrom(data, from + 1)
  }

  function FirstAbsent(data: Json): nat
    requires !data.JNull?
  {
    FirstAbsentFrom(data, 0)
  }

  /** The `for (const field of requiredFields)` loop with its early return: the
      name of the first missing field, or None when every field is there. */
  method FindMissingField(data: Json) returns (missing: Option<string>)
    requires !data.JNull?
    ensures missing.None? <==> FirstAbsent(data) == |RequiredFields|
    ensures missing.Some? ==> missing.value == RequiredFields[FirstAbsent(data)]
  {
    for i := 0 to |RequiredFields|
      invariant forall j | 0 <= j < i :: Present(data, RequiredFields[j])
    {
      if !Present(data, RequiredFields[i]) {
        FirstAbsentIsLeast(data, i);
        return Some(RequiredFields[i]);
      }
    }
    FirstAbsentIsLeast(data, |RequiredFields|);
    return None;
  }

  /** Whatever index `k` has every earlier field present and is itself missing
      (or is the end of the list) is the first missing index. */
  lemma FirstAbsentIsLeast(data: Json, k: nat)
    requires !data.JNull? && k <= |RequiredFields|
    requires forall j | 0 <= j < k :: Present(data, RequiredFields[j])
    requires k < |RequiredFields| ==> !Present(data, RequiredFields[k])
    ensures FirstAbsent(data) == k
  {
  }

  /** The decision taken before the store is touched (the method gate, the body
      parse and the required-field loop): answer now, or go on with the parsed
      form. */
  datatype Intake = Respond(response: Response) | Proceed(form: Json)

  function MissingFieldMessage(field: string): string {
    "Missing required field: " + field
  }

  function IntakeOf(event: Event): (d: Intake)
    ensures d.Proceed? <==>
              && event.httpMethod == "POST" && event.body.Parsed? && !event.body.json.JNull?
              && FirstAbsent(event.body.json) == |RequiredFields|
    ensures d.Proceed? ==> d.form == event.body.json
    ensures d.Respond? ==> d.response.statusCode in {200, 400, 405, 500}
  {
    if event.httpMethod == "OPTIONS" then Respond(Preflight)
    else if event.httpMethod != "POST" then Respond(MethodNotAllowed)
    else match event.body
      case Unparsable => Respond(InternalError)
      case Parsed(data) =>
        if data.JNull? then Respond(InternalError)
        else
          var k := FirstAbsent(data);
          if k < |RequiredFields| then Respond(Fail(400, MissingFieldMessage(RequiredFields[k])))
          else Proceed(data)
  }

  /** When several fields are missing, the 400 names the earliest of them. */
  lemma MissingFieldReported(data: Json, k: nat)
    requires !data.JNull? && k < |RequiredFields|
    requires !Present(data, RequiredFields[k])
    requires forall j | 0 <= j < k :: Present(data, RequiredFields[j])
    ensures IntakeOf(Event("POST", Parsed(data))) ==
              Respond(Fail(400, MissingFieldMessage(RequiredFields[k])))
  {
  }

  /** A complete form with any one required member removed is answered with a
      400 naming exactly that member, for each of the nine in turn. */
  lemma OmittedFieldIsNamed(members: map<string, Json>, k: nat)
    requires k < |RequiredFields|
    requires forall j | 0 <= j < |RequiredFields| :: Present(JObject(members), RequiredFields[j])
    ensures IntakeOf(Event("POST", Parsed(JObject(members - {RequiredFields[k]})))) ==
              Respond(Fail(400, MissingFieldMessage(RequiredFields[k])))
  {
  }

  /** OPTIONS is answered 200 with an empty body before the body is parsed; any
      method other than POST and OPTIONS gets 405; a POST whose body is not JSON,
      or is JSON `null`, ends in the catch block's 500. */
  lemma IntakeGates(body: Body, verb: string)
    ensures IntakeOf(Event("OPTIONS", body)) == Respond(Preflight)
    ensures verb != "POST" && verb != "OPTIONS" ==>
              IntakeOf(Event(verb, body)) == Respond(MethodNotAllowed)
    ensures IntakeOf(Event("POST", Unparsable)) == Respond(InternalError)
    ensures IntakeOf(Event("POST", Parsed(JNull))) == Respond(InternalError)
  {
  }

  /** The student row built from a validated form (`grade` is stored as sent). */
  function StudentFrom(form: Json, now: int): (s: Student)
    requires !form.JNull?
    ensures s.email == Member(form, "email") && s.schoolId == Member(form, "school")
    ensures s.createdAt == now
  {
    Student(
      Member(form, "firstName"), Member(form, "lastName"), Member(form, "email"),
      Member(form, "phone"), Member(form, "school"), Member(form, "grade"),
      Member(form, "projectTitle"), Member(form, "projectDescription"),
      Member(form, "category"), now)
  }

  /** The backend errors each insert may meet. */
  datatype Faults = Faults(studentInsert: bool, registrationInsert: bool)

  /** The student insert succeeds: no backend error and a known school. */
  predicate StudentAccepted(form: Json, schools: map<Id, School>, faults: Faults)
    requires !form.JNull?
  {
    !faults.studentInsert && NamesSchool(Member(form, "school"), schools)
  }

  /** The handler. Every rejection leaves the store as it was; a failed
      registration insert leaves the new student behind; a success adds exactly
      one student and one pending registration that points at it. */
  method SubmitRegistration(db: Database, event: Event, now: int, faults: Faults)
    returns (resp: Response)
    requires db.Valid()
    modifies db
    ensures db.Valid() && db.schools == old(db.schools)
    ensures IntakeOf(event).Respond? ==> resp == IntakeOf(event).response && unchanged(db)
    ensures IntakeOf(event).Proceed? ==>
              var form := IntakeOf(event).form;
              if !StudentAccepted(form, old(db.schools), faults) then
                resp == Fail(500, "Failed to save student data") && db.students == old(db.students) && db.registrations == old(db.registrations)
              else if faults.registrationInsert then
                && resp == Fail(500, "Failed to create registration")
                && db.registrations == old(db.registrations)
                && |db.students.Keys - old(db.students).Keys| == 1
                && (forall id | id in old(db.students) :: id in db.students && db.students[id] == old(db.students)[id])
                && (forall id | id in db.students && id !in old(db.students) :: db.students[id] == StudentFrom(form, now))
              else
                && resp.statusCode == 200 && resp.body.Submitted?
                && resp.body.message == "Registration submitted successfully"
                && resp.body.studentId !in old(db.students)
                && db.students == old(db.students)[resp.body.studentId := StudentFrom(form, now)]
                && resp.body.registrationId !in IdsOf(old(db.registrations))
                && db.registrations == old(db.registrations)
                     + [Registration(resp.body.registrationId, resp.body.studentId, Pending, now)]
  {
    if event.httpMethod == "OPTIONS" {
      return Preflight;
    }
    if event.httpMethod != "POST" {
      return MethodNotAllowed;
    }
    if event.body.Unparsable? {
      return InternalError;
    }
    var data := event.body.json;
    if data.JNull? {
      // data[field] throws on null; the catch block answers
      return InternalError;
    }
    var missing := FindMissingField(data);
    if missing.Some? {
      return Fail(400, MissingFieldMessage(missing.value));
    }
    var student := StudentFrom(data, now);
    var studentId := db.InsertStudent(student, faults.studentInsert);
    if studentId.None? {
      return Fail(500, "Failed to save student data");
    }
    var registration := db.InsertRegistration(studentId.value, Pending, now, faults.registrationInsert);
    if registration.None? {
      assert db.students.Keys - old(db.students).Keys == {studentId.value};
      return Fail(500, "Failed to create registration");
    }
    return Response(200, Submitted("Registration submitted successfully", registration.value.id, studentId.value));
  }

}
