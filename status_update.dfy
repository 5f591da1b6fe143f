/** The `update-registration` handler: a ladder of guards (method, user, role,
    fields, status value) and then an unconditional overwrite of one
    registration's status. */
module StatusUpdate {

  import opened Options
  import opened JsValues
  import opened Auth
  import opened Store
  import opened Http

  /** The outcome of the guards that run before the update query: answer now,
      or overwrite the status of the registration that `target` names. */
  datatype Decision = Reply(response: Response) | Apply(target: Json, status: Status)

  const MissingFields: Response := Fail(400, "Missing required fields")
  const InvalidStatus: Response := Fail(400, "Invalid status")

  /** The guards, in the source's order: OPTIONS, PUT only, a user, a staff role,
      a parsable body, both members present, a known status. The body is parsed
      only after the role check. */
  function Guard(event: Event, user: Option<User>): (d: Decision)
    ensures d.Apply? <==>
              && event.httpMethod == "PUT" && user.Some? && IsStaff(RolesOf(user.value))
              && event.body.Parsed? && !event.body.json.JNull?
              && Present(event.body.json, "registrationId")
              && ParseStatus(Property(event.body.json, "status")).Some?
    ensures d.Apply? ==>
              && Property(event.body.json, "registrationId") == Some(d.target)
              && Property(event.body.json, "status") == Some(JStr(StatusName(d.status)))
    ensures d.Reply? ==> d.response.statusCode in {200, 400, 401, 403, 405, 500}
  {
    if event.httpMethod == "OPTIONS" then Reply(Preflight)
    else if event.httpMethod != "PUT" then Reply(MethodNotAllowed)
    else if user.None? then Reply(Unauthorized)
    else
      var roles := RolesOf(user.value);
      if !(Admin in roles) && !(SchoolOfficial in roles) then Reply(Forbidden)
      else match event.body
        case Unparsable => Reply(InternalError)
        case Parsed(data) =>
          if data.JNull? then Reply(InternalError)  // destructuring null throws
          else
            var registrationId := Property(data, "registrationId");
            var status := Property(data, "status");
            if !Truthy(registrationId) || !Truthy(status) then Reply(MissingFields)
            else match ParseStatus(status)
              case None => Reply(InvalidStatus)
              case Some(s) => Apply(registrationId.value, s)
  }

  /** OPTIONS is answered 200 with no body; every other method but PUT gets 405. */
  lemma MethodGate(event: Event, user: Option<User>)
    ensures event.httpMethod == "OPTIONS" ==> Guard(event, user) == Reply(Preflight)
    ensures event.httpMethod != "OPTIONS" && event.httpMethod != "PUT" ==>
              Guard(event, user) == Reply(MethodNotAllowed)
  {
  }

  /** A staff PUT whose body is not JSON, or is JSON `null`, throws while the
      body is parsed or destructured, and the catch block answers 500. */
  lemma MalformedBodyIsInternalError(user: User, body: Body)
    requires IsStaff(RolesOf(user))
    requires body.Unparsable? || body == Parsed(JNull)
    ensures Guard(Event("PUT", body), Some(user)) == Reply(InternalError)
  {
  }

  /** Without a user the answer is 401, before roles or body are looked at. */
  lemma NoUserIsUnauthorized(event: Event)
    requires event.httpMethod == "PUT"
    ensures Guard(event, None) == Reply(Unauthorized)
  {
  }

  /** A user holding neither staff role gets 403 whatever the body says, a
      user without metadata or roles among them. */
  lemma NonStaffIsForbidden(user: User, body: Body)
    requires !IsStaff(RolesOf(user))
    ensures Guard(Event("PUT", body), Some(user)) == Reply(Forbidden)
  {
  }

  /** A staff request whose body lacks either member, or carries a falsy one,
      gets 400 "Missing required fields". */
  lemma MissingMemberIsRejected(user: User, data: Json)
    requires IsStaff(RolesOf(user)) && !data.JNull?
    requires !Present(data, "registrationId") || !Present(data, "status")
    ensures Guard(Event("PUT", Parsed(data)), Some(user)) == Reply(MissingFields)
  {
  }

  /** A staff request with both members but a status outside the enumeration
      gets 400 "Invalid status". */
  lemma UnknownStatusIsRejected(user: User, data: Json)
    requires IsStaff(RolesOf(user)) && !data.JNull?
    requires Present(data, "registrationId") && Present(data, "status")
    requires forall s: Status :: Property(data, "status") != Some(JStr(StatusName(s)))
    ensures Guard(Event("PUT", Parsed(data)), Some(user)) == Reply(InvalidStatus)
  {
  }

  /** Any of the three statuses may be requested for any row, whatever its
      current status: the guards look at the request only. */
  lemma EveryStatusIsAccepted(user: User, id: string, s: Status)
    requires IsStaff(RolesOf(user)) && id != ""
    ensures Guard(Event("PUT", Parsed(JObject(map["registrationId" := JStr(id), "status" := JStr(StatusName(s))]))), Some(user))
              == Apply(JStr(id), s)
  {
  }

  /** The handler. Any refusal leaves the store unchanged; a store error, or an
      id that names no row (`.single()` sees no row), gives 500 and also changes
      nothing; otherwise exactly that row's status is overwritten. */
  method UpdateRegistration(db: Database, event: Event, user: Option<User>, storeFails: bool)
    returns (resp: Response)
    requires db.Valid()
    modifies db
    ensures db.Valid() && db.schools == old(db.schools) && db.students == old(db.students)
    ensures Guard(event, user).Reply? ==>
              resp == Guard(event, user).response && db.registrations == old(db.registrations)
    ensures Guard(event, user).Apply? ==>
              var target, status := Guard(event, user).target, Guard(event, user).status;
              if storeFails || !target.JStr? || target.s !in IdsOf(old(db.registrations)) then
                resp == Fail(500, "Failed to update registration")
                && db.registrations == old(db.registrations)
              else
                && resp.statusCode == 200 && resp.body.Updated?
                && resp.body.message == "Registration updated successfully"
                && resp.body.registration in db.registrations
                && resp.body.registration.id == target.s
                && resp.body.registration.status == status
                && db.registrations == WithStatus(old(db.registrations), target.s, status)
  {
    var decision := Guard(event, user);
    if decision.Reply? {
      return decision.response;
    }
    var row := db.UpdateStatus(decision.target, decision.status, storeFails);
    if row.None? {
      return Fail(500, "Failed to update registration");
    }
    return Response(200, Updated("Registration updated successfully", row.value));
  }

  /** After a successful update the row holds the requested status, every other
      row is as it was, and no row is added or removed. */
  lemma UpdateTouchesOnlyTarget(rows: seq<Registration>, id: Id, status: Status)
    requires UniqueIds(rows)
    ensures var out := WithStatus(rows, id, status);
              && |out| == |rows| && UniqueIds(out)
              && (forall i | 0 <= i < |rows| :: out[i].id == rows[i].id && out[i].studentId == rows[i].studentId
                                               && out[i].createdAt == rows[i].createdAt)
              && (forall r | r in out && r.id == id :: r.status == status)
              && (forall r | r in rows && r.id != id :: r in out)
  {
  }

}
