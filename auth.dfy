/** The requester as the identity service describes it, and the role checks made
    on it: `auth.hasRole` on the client and `roles || []` in the handlers. */
module Auth {

  import opened Options

  /** `app_metadata`; `roles` may be absent. */
  datatype AppMetadata = AppMetadata(roles: Option<seq<string>>)

  /** An authenticated user; `app_metadata` may be absent. */
  datatype User = User(email: string, appMetadata: Option<AppMetadata>)

  const Admin: string := "admin"
  const SchoolOfficial: string := "school_official"

  /** `user.app_metadata?.roles || []`, as both serverless handlers compute it:
      a user without metadata or without a roles list has no role. */
  function RolesOf(user: User): (roles: seq<string>)
    ensures user.appMetadata.Some? && user.appMetadata.value.roles.Some? ==>
              roles == user.appMetadata.value.roles.value
    ensures user.appMetadata.None? || user.appMetadata.value.roles.None? ==> roles == []
  {
    match user.appMetadata
    case None => []
    case Some(metadata) =>
      match metadata.roles
      case None => []
      case Some(roles) => roles
  }

  /** `auth.hasRole(user, role)`: false for a missing user, missing metadata or a
      missing roles list, otherwise membership in the roles list. Its contract is
      the agreement with the handlers' `roles || []`. */
  function HasRole(user: Option<User>, role: string): (r: bool)
    ensures r <==> user.Some? && role in RolesOf(user.value)
    ensures user.None? ==> !r
  {
    if user.None? || user.value.appMetadata.None? || user.value.appMetadata.value.roles.None? then
      false
    else
      role in user.value.appMetadata.value.roles.value
  }

  /** The permission both handlers require to change or see every registration. */
  predicate IsStaff(roles: seq<string>) {
    Admin in roles || SchoolOfficial in roles
  }

}
