/** The dashboard page: its state (user, registrations, loading flag), the
    effect that loads it, logout, the local status update, and what the page
    shows, reduced to which view appears and which rows offer approve/reject. */
module DashboardPage {

  import opened Options
  import opened JsValues
  import opened Auth
  import opened Store
  import StatusUpdate
  import opened Listing
  import Http

  /** `prev.map(reg => reg.id === registrationId ? { ...reg, status } : reg)`:
      the entries with the given id take the new status; everything else, the
      length and the order are kept. */
  function ListWithStatus(regs: seq<RegistrationView>, id: Id, status: Status): (out: seq<RegistrationView>)
    ensures |out| == |regs|
    ensures forall i | 0 <= i < |regs| && regs[i].id == id :: out[i] == regs[i].(status := status)
    ensures forall i | 0 <= i < |regs| && regs[i].id != id :: out[i] == regs[i]
  {
    if regs == [] then []
    else [if regs[0].id == id then regs[0].(status := status) else regs[0]]
         + ListWithStatus(regs[1..], id, status)
  }

  /** An id that matches no entry leaves the list as it was. */
  lemma UnknownIdChangesNothing(regs: seq<RegistrationView>, id: Id, status: Status)
    requires forall i | 0 <= i < |regs| :: regs[i].id != id
    ensures ListWithStatus(regs, id, status) == regs
  {
  }

  /** The page's local update and the server's overwrite agree: the
      registration columns of the updated list are those of the stored rows
      after `update({ status }).eq('id', id)`. */
  lemma LocalUpdateMatchesServer(regs: seq<RegistrationView>, id: Id, status: Status)
    ensures ColumnsOf(ListWithStatus(regs, id, status)) == WithStatus(ColumnsOf(regs), id, status)
  {
  }

  /** `user.app_metadata?.roles?.includes('admin')`. */
  function IsAdmin(user: User): (r: bool)
    ensures r == HasRole(Some(user), Admin)
  {
    user.appMetadata.Some? && user.appMetadata.value.roles.Some?
    && Admin in user.appMetadata.value.roles.value
  }

  /** `user.app_metadata?.roles?.includes('school_official')`. */
  function IsSchoolOfficial(user: User): (r: bool)
    ensures r == HasRole(Some(user), SchoolOfficial)
  {
    user.appMetadata.Some? && user.appMetadata.value.roles.Some?
    && SchoolOfficial in user.appMetadata.value.roles.value
  }

  /** The buttons a row shows, as the statuses they request: approve and reject,
      for admins and school officials, on pending rows only. */
  function Actions(user: User, reg: RegistrationView): (actions: seq<Status>)
    ensures actions != [] <==> (IsAdmin(user) || IsSchoolOfficial(user)) && reg.status == Pending
    ensures actions != [] ==> actions == [Approved, Rejected]
  {
    if (IsAdmin(user) || IsSchoolOfficial(user)) && reg.status == Pending then [Approved, Rejected]
    else []
  }

  datatype Row = Row(registration: RegistrationView, actions: seq<Status>)

  /** Which view the page renders. */
  datatype Screen = LoginPrompt | LoadingNotice | RegistrationList(rows: seq<Row>)

  function Render(user: Option<User>, loading: bool, regs: seq<RegistrationView>): (screen: Screen)
    ensures screen == LoginPrompt <==> user.None?
    ensures user.Some? && loading ==> screen == LoadingNotice
    ensures user.Some? && !loading ==> screen.RegistrationList?
    ensures screen.RegistrationList? ==>
              user.Some? && !loading && |screen.rows| == |regs|
              && forall i | 0 <= i < |regs| :: screen.rows[i] == Row(regs[i], Actions(user.value, regs[i]))
  {
    if user.None? then LoginPrompt
    else if loading then LoadingNotice
    else RegistrationList(seq(|regs|, i requires 0 <= i < |regs| => Row(regs[i], Actions(user.value, regs[i]))))
  }

  /** The only moves the page offers are pending to approved and pending to
      rejected, to admins and school officials; taking one moves that entry, and
      only the entries sharing its id, to the chosen status. */
  lemma OfferedMovesLeavePending(user: Option<User>, loading: bool, regs: seq<RegistrationView>, i: nat, target: Status)
    requires Render(user, loading, regs).RegistrationList?
    requires i < |regs| && target in Render(user, loading, regs).rows[i].actions
    ensures user.Some? && IsStaff(RolesOf(user.value))
    ensures regs[i].status == Pending && target in {Approved, Rejected}
    ensures var after := ListWithStatus(regs, regs[i].id, target);
            && after[i] == regs[i].(status := target)
            && forall j | 0 <= j < |regs| && regs[j].id != regs[i].id :: after[j] == regs[j]
  {
  }

  /** Whoever the page offers a move to would pass the update handler's guards
      with that request, given a non-empty row id. */
  lemma OfferedMovesPassHandlerGuards(user: User, reg: RegistrationView, target: Status)
    requires target in Actions(user, reg) && reg.id != ""
    ensures StatusUpdate.Guard(
              Http.Event("PUT", Http.Parsed(JObject(map["registrationId" := JStr(reg.id), "status" := JStr(StatusName(target))]))),
              Some(user))
            == StatusUpdate.Apply(JStr(reg.id), target)
  {
  }

  /** The user the page's effect installs in place of a login. */
  const MockUser: User := User("admin@scienceday.com", Some(AppMetadata(Some([Admin]))))

  /** 2024-01-15T10:00:00Z and 2024-01-14T15:30:00Z, in seconds since the epoch. */
  const MockRegistrations: seq<RegistrationView> := [
    RegistrationView("1", "1", Pending, 1705312800,
      StudentSummary(JStr("John"), JStr("Doe"), JStr("john@example.com"),
        JStr("Solar Panel Efficiency"), JStr("engineering"), SchoolSummary("Lincoln High School"))),
    RegistrationView("2", "2", Approved, 1705246200,
      StudentSummary(JStr("Jane"), JStr("Smith"), JStr("jane@example.com"),
        JStr("Plant Growth Analysis"), JStr("biology"), SchoolSummary("Washington Academy")))
  ]

  /** The page component's state. */
  class Dashboard {
    var user: Option<User>
    var registrations: seq<RegistrationView>
    var loading: bool

    function Screen(): Screen
      reads this
    {
      Render(user, loading, registrations)
    }

    /** `useState(null)`, `useState([])`, `useState(true)`. */
    constructor ()
      ensures user == None && registrations == [] && loading
      ensures Screen() == LoginPrompt
    {
      user := None;
      registrations := [];
      loading := true;
    }

    /** The mount effect: the mock admin, the two mock registrations, loading
        over. The pending row offers approve and reject, the approved one none. */
    method Load()
      modifies this
      ensures user == Some(MockUser) && registrations == MockRegistrations && !loading
      ensures Screen() == RegistrationList([
                Row(MockRegistrations[0], [Approved, Rejected]),
                Row(MockRegistrations[1], [])])
    {
      user := Some(MockUser);
      registrations := MockRegistrations;
      loading := false;
      assert Actions(MockUser, MockRegistrations[0]) == [Approved, Rejected];
      assert Actions(MockUser, MockRegistrations[1]) == [];
    }

    /** `handleLogout`: the user is cleared and the login view replaces the list. */
    method HandleLogout()
      modifies this
      ensures user == None && registrations == old(registrations) && loading == old(loading)
      ensures Screen() == LoginPrompt
    {
      user := None;
    }

    /** `updateRegistrationStatus`: the local list is mapped; nothing is sent to
        the update handler. */
    method UpdateRegistrationStatus(registrationId: Id, status: Status)
      modifies this
      ensures registrations == ListWithStatus(old(registrations), registrationId, status)
      ensures user == old(user) && loading == old(loading)
    {
      registrations := ListWithStatus(registrations, registrationId, status);
    }
  }

}
