/** The `get-registrations` handler: method and user gates, a role-based row
    filter, and the rows ordered by `created_at`, newest first, each with its
    student and school embedded. It only reads the store. */
module Listing {

  import opened Options
  import opened JsValues
  import opened Auth
  import opened Store
  import opened Http

  /** Which rows a requester may see. */
  datatype RowScope = AllRows | OwnRows(email: string)

  /** The role branch that decides the query's filter. `school_official` is tested first and, its
      school filter not being implemented, sees every row; `admin` sees every
      row; anyone else sees the rows of the student with their email. */
  function ScopeOf(user: User): (scope: RowScope)
    ensures scope == AllRows <==> IsStaff(RolesOf(user))
    ensures scope.OwnRows? ==> scope.email == user.email
  {
    var roles := RolesOf(user);
    if SchoolOfficial in roles then AllRows
    else if Admin !in roles then OwnRows(user.email)
    else AllRows
  }

  predicate InScope(scope: RowScope, students: map<Id, Student>, r: Registration) {
    match scope
    case AllRows => true
    case OwnRows(email) => r.studentId in students && students[r.studentId].email == JStr(email)
  }

  /** The rows in scope, each as many times as it is stored. */
  function Filter(rows: seq<Registration>, students: map<Id, Student>, scope: RowScope)
    : (out: seq<Registration>)
    ensures forall r :: multiset(out)[r] == if InScope(scope, students, r) then multiset(rows)[r] else 0
    ensures scope == AllRows ==> out == rows
  {
    if rows == [] then []
    else
      assert rows == [rows[0]] + rows[1..];
      var rest := Filter(rows[1..], students, scope);
      if InScope(scope, students, rows[0]) then [rows[0]] + rest else rest
  }

  /** Non-increasing `created_at`: `.order('created_at', { ascending: false })`. */
  predicate NewestFirst(rows: seq<Registration>) {
    forall i, j | 0 <= i < j < |rows| :: rows[i].createdAt >= rows[j].createdAt
  }

  function InsertByNewest(r: Registration, rows: seq<Registration>): (out: seq<Registration>)
    requires NewestFirst(rows)
    ensures NewestFirst(out)
    ensures multiset(out) == multiset(rows) + multiset{r}
    ensures out[0] == r || (rows != [] && out[0] == rows[0])
  {
    if rows == [] || r.createdAt >= rows[0].createdAt then [r] + rows
    else
      var rest := InsertByNewest(r, rows[1..]);
      assert rows[0].createdAt >= rest[0].createdAt;
      assert multiset([rows[0]] + rest) == multiset{rows[0]} + multiset(rest);
      assert rows == [rows[0]] + rows[1..];
      [rows[0]] + rest
  }

  /** The rows in the order the query returns them. Rows with equal `created_at`
      come in an order the database leaves open; the model keeps stored order. */
  function SortByNewest(rows: seq<Registration>): (out: seq<Registration>)
    ensures NewestFirst(out)
    ensures multiset(out) == multiset(rows)
  {
    if rows == [] then []
    else
      assert rows == [rows[0]] + rows[1..];
      InsertByNewest(rows[0], SortByNewest(rows[1..]))
  }

  /** Each row with its student and school embedded. */
  function Views(rows: seq<Registration>, t: Tables): (out: seq<RegistrationView>)
    requires forall r | r in rows :: Joinable(r, t)
    ensures |out| == |rows|
    ensures forall i | 0 <= i < |rows| :: out[i] == ViewOf(rows[i], t)
  {
    seq(|rows|, i requires 0 <= i < |rows| => ViewOf(rows[i], t))
  }

  /** The registration columns of listed rows. */
  function ColumnsOf(views: seq<RegistrationView>): (out: seq<Registration>)
    ensures |out| == |views|
    ensures forall i | 0 <= i < |views| :: out[i] == Columns(views[i])
  {
    seq(|views|, i requires 0 <= i < |views| => Columns(views[i]))
  }

  /** The rows the query yields for `user`: filtered, then ordered, then joined. */
  function Query(user: User, t: Tables): (out: seq<RegistrationView>)
    requires Consistent(t)
    ensures forall i | 0 <= i < |out| :: Columns(out[i]) in t.registrations
  {
    var rows := SortByNewest(Filter(t.registrations, t.students, ScopeOf(user)));
    assert forall r | r in rows :: r in t.registrations by {
      assert forall r | r in rows :: r in multiset(t.registrations);
    }
    Views(rows, t)
  }

  /** What the query returns besides rows: an error, or `null` data. */
  datatype QueryResult = Data | NullData | QueryError

  /** The handler. The store is a value here: listing cannot change it. */
  function GetRegistrations(event: Event, user: Option<User>, t: Tables, result: QueryResult)
    : (resp: Response)
    requires Consistent(t)
    ensures event.httpMethod == "OPTIONS" ==> resp == Preflight
    ensures event.httpMethod != "OPTIONS" && event.httpMethod != "GET" ==> resp == MethodNotAllowed
    ensures event.httpMethod == "GET" && user.None? ==> resp == Unauthorized
    ensures resp.statusCode == 200 && resp.body.Rows? <==>
              event.httpMethod == "GET" && user.Some? && result != QueryError
    ensures event.httpMethod == "GET" && user.Some? && result == QueryError ==>
              resp == Fail(500, "Failed to fetch registrations")
    ensures resp.body.Rows? && result == NullData ==> resp.body.rows == []
    ensures resp.body.Rows? && result == Data ==> resp.body.rows == Query(user.value, t)
  {
    if event.httpMethod == "OPTIONS" then Preflight
    else if event.httpMethod != "GET" then MethodNotAllowed
    else if user.None? then Unauthorized
    else match result
      case QueryError => Fail(500, "Failed to fetch registrations")
      case NullData => Response(200, Rows([]))  // `registrations || []`
      case Data => Response(200, Rows(Query(user.value, t)))
  }

  /** The rows of a listing come newest first. */
  lemma ListingIsNewestFirst(user: User, t: Tables)
    requires Consistent(t)
    ensures var rows := Query(user, t);
            forall i, j | 0 <= i < j < |rows| :: rows[i].createdAt >= rows[j].createdAt
  {
  }

  /** The listed rows, counted with repetition, are exactly the stored rows in
      the requester's scope: nothing is invented, dropped or duplicated. */
  lemma ListingIsScopedStore(user: User, t: Tables)
    requires Consistent(t)
    ensures forall r :: multiset(ColumnsOf(Query(user, t)))[r] ==
              if InScope(ScopeOf(user), t.students, r) then multiset(t.registrations)[r] else 0
  {
    var sorted := SortByNewest(Filter(t.registrations, t.students, ScopeOf(user)));
    assert ColumnsOf(Query(user, t)) == sorted;
  }

  /** `admin` and `school_official` see every stored registration, once each. */
  lemma StaffSeeEverything(user: User, t: Tables)
    requires Consistent(t) && IsStaff(RolesOf(user))
    ensures multiset(ColumnsOf(Query(user, t))) == multiset(t.registrations)
  {
    ListingIsScopedStore(user, t);
    assert ScopeOf(user) == AllRows;
  }

  /** Anyone else sees exactly the stored registrations of the student whose
      email is theirs, and every listed row shows that email. */
  lemma OthersSeeOwnRows(user: User, t: Tables)
    requires Consistent(t) && !IsStaff(RolesOf(user))
    ensures forall r :: r in ColumnsOf(Query(user, t)) <==>
              r in t.registrations && t.students[r.studentId].email == JStr(user.email)
    ensures forall v | v in Query(user, t) :: v.student.email == JStr(user.email)
  {
    ListingIsScopedStore(user, t);
    var rows := Query(user, t);
    var columns := ColumnsOf(rows);
    forall r ensures r in columns <==> r in t.registrations && t.students[r.studentId].email == JStr(user.email) {
      assert r in columns <==> multiset(columns)[r] > 0;
    }
    forall v | v in rows ensures v.student.email == JStr(user.email) {
      var i :| 0 <= i < |rows| && rows[i] == v;
      assert columns[i] in columns;
    }
  }

  /** Every stored registration is listed for staff, with its own status: a
      row just submitted shows up as pending. */
  lemma StoredRowIsListedForStaff(user: User, t: Tables, r: Registration)
    requires Consistent(t) && IsStaff(RolesOf(user)) && r in t.registrations
    ensures Joinable(r, t) && ViewOf(r, t) in Query(user, t)
  {
    StaffSeeEverything(user, t);
    var rows := Query(user, t);
    var columns := ColumnsOf(rows);
    assert r in multiset(columns);
    var i :| 0 <= i < |columns| && columns[i] == r;
    assert rows[i] == ViewOf(r, t);
  }

}
