/** The access decision of src/components/ProtectedRoute.tsx. */
module ProtectedRoute {
  import opened Wrappers
  import opened Auth

  /** What the route renders. */
  datatype View = Spinner | Fallback | AccessRestricted | AccessDenied | Children

  /** The roles allowed when the caller names none. */
  const DefaultRoles: seq<Role> := [Customer, Barber, Admin]

  /** The decision: spinner while loading, then the sign-in check, then the
      role check; a given fallback replaces either refusal screen. */
  function Decide(
    loading: bool, user: Option<string>, profile: Option<Profile>, allowedRoles: Option<seq<Role>>,
    hasFallback: bool): (v: View)
    ensures loading ==> v == Spinner
    ensures v == Children <==>
      !loading && user.Some? && profile.Some? && profile.value.role in allowedRoles.GetOr(DefaultRoles)
    ensures !loading && (user.None? || profile.None?) ==> v == (if hasFallback then Fallback else AccessRestricted)
    ensures v == AccessDenied <==>
      (!loading && user.Some? && profile.Some? && profile.value.role !in allowedRoles.GetOr(DefaultRoles)
       && !hasFallback)
    ensures (!loading && user.Some? && profile.Some? && profile.value.role !in allowedRoles.GetOr(DefaultRoles)
             && hasFallback) ==> v == Fallback
  {
    if loading then Spinner
    else if user.None? || profile.None? then (if hasFallback then Fallback else AccessRestricted)
    else if profile.value.role !in allowedRoles.GetOr(DefaultRoles) then (if hasFallback then Fallback else AccessDenied)
    else Children
  }

  /** With the default roles every signed-in user with a profile gets the
      children once loading ends. */
  lemma DefaultAdmitsEveryProfile(user: string, profile: Profile, hasFallback: bool)
    ensures Decide(false, Some(user), Some(profile), None, hasFallback) == Children
  {
    assert profile.role in DefaultRoles by {
      match profile.role
      case Customer => assert DefaultRoles[0] == Customer;
      case Barber => assert DefaultRoles[1] == Barber;
      case Admin => assert DefaultRoles[2] == Admin;
    }
  }
}
