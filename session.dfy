/**
 * The session guard of src/hooks/use-session.tsx: the signed-in user as last reported by the
 * authentication service, the redirect and render decisions taken from it and the current
 * path, and the local merge after a profile update.
 */
module Sessions {
  import opened Wrappers

  /** The user fields the application reads; a missing display name or email is `None` (`null`). */
  datatype User = User(uid: string, email: Option<string>, displayName: Option<string>)

  datatype Session = Session(user: Option<User>, loading: bool)

  /** The argument of `updateUserProfile`; `None` means the key is absent. */
  datatype UpdateData = UpdateData(displayName: Option<string>)

  datatype Redirect = Stay | PushTo(path: string)

  /** What the provider renders: the spinner, its children, or nothing. */
  datatype View = Spinner | Children | Nothing

  const InitialSession: Session := Session(None, true)

  const NoUserError: string := "No user is signed in to update profile."

  /** `['/login', '/signup', '/'].includes(pathname)`: the three pages a signed-out visitor may see. */
  predicate IsPublicRoute(pathname: string)
    ensures IsPublicRoute(pathname) <==> pathname == "/login" || pathname == "/signup" || pathname == "/"
    ensures IsPublicRoute(pathname) ==> |pathname| > 0 && pathname[0] == '/'
  {
    pathname in ["/login", "/signup", "/"]
  }

  /** The redirect effect. */
  function RedirectFor(s: Session, pathname: string): (r: Redirect)
    ensures s.loading ==> r == Stay
    ensures !s.loading && s.user.Some? && IsPublicRoute(pathname) ==> r == PushTo("/dashboard")
    ensures !s.loading && s.user.None? && !IsPublicRoute(pathname) ==> r == PushTo("/login")
    ensures r.PushTo? <==> !s.loading && (s.user.Some? <==> IsPublicRoute(pathname))
  {
    if !s.loading then
      if s.user.Some? && IsPublicRoute(pathname) then PushTo("/dashboard")
      else if s.user.None? && !IsPublicRoute(pathname) then PushTo("/login")
      else Stay
    else Stay
  }

  /** The render decision. */
  function ViewFor(s: Session, pathname: string): (r: View)
    ensures r == Spinner <==> s.loading
    ensures r == Children <==> !s.loading && (s.user.Some? || IsPublicRoute(pathname))
  {
    if s.loading then Spinner
    else if s.user.Some? || IsPublicRoute(pathname) then Children
    else Nothing
  }

  /** A redirect lands on a path where the guard neither redirects again nor withholds the page. */
  lemma RedirectSettles(s: Session, pathname: string)
    requires RedirectFor(s, pathname).PushTo?
    ensures RedirectFor(s, RedirectFor(s, pathname).path) == Stay
    ensures ViewFor(s, RedirectFor(s, pathname).path) == Children
  {
  }

  /** When nothing is rendered, the guard is sending the visitor to the login page. */
  lemma NothingMeansLogin(s: Session, pathname: string)
    ensures ViewFor(s, pathname) == Nothing <==> RedirectFor(s, pathname) == PushTo("/login")
  {
  }

  /** The `setSession` updater after a successful profile update. */
  function MergeProfile(prev: Session, data: UpdateData): (r: Session)
    ensures r.loading == prev.loading
    ensures prev.user.None? ==> r == prev
    ensures prev.user.Some? ==> (r.user.Some? && r.user.value.uid == prev.user.value.uid
                                 && r.user.value.email == prev.user.value.email)
    ensures prev.user.Some? && data.displayName.Some? ==> r.user.value.displayName == data.displayName
    ensures prev.user.Some? && data.displayName.None? ==> r.user.value.displayName == prev.user.value.displayName
  {
    match prev.user
    case None => prev
    case Some(u) =>
      var updated := if data.displayName.Some? then u.(displayName := data.displayName) else u;
      prev.(user := Some(updated))
  }

  /** Sending the same update twice leaves the local user as one update does. */
  lemma MergeProfileIdempotent(prev: Session, data: UpdateData)
    ensures MergeProfile(MergeProfile(prev, data), data) == MergeProfile(prev, data)
  {
  }

  class SessionProvider {
    var session: Session

    constructor ()
      ensures session == InitialSession
    {
      session := InitialSession;
    }

    /** The `onAuthStateChanged` callback. */
    method OnAuthStateChanged(user: Option<User>)
      modifies this
      ensures session == Session(user, false)
    {
      session := Session(user, false);
    }

    /**
     * `updateUserProfile(data)`. `currentUser` is the authentication service's current user and
     * `remoteError` the rejection of its profile update, if it rejected.
     */
    method UpdateUserProfile(currentUser: Option<User>, remoteError: Option<string>, data: UpdateData)
      returns (r: Result<(), string>)
      modifies this
      ensures currentUser.None? ==> r == Failure(NoUserError) && session == old(session)
      ensures currentUser.Some? && remoteError.Some? ==> r == Failure(remoteError.value) && session == old(session)
      ensures currentUser.Some? && remoteError.None? ==> r == Success(()) && session == MergeProfile(old(session), data)
    {
      if currentUser.None? {
        return Failure(NoUserError);
      }
      if remoteError.Some? {
        return Failure(remoteError.value);
      }
      session := MergeProfile(session, data);
      r := Success(());
    }
  }
}
