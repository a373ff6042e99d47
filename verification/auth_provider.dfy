/** The authentication guard: what the initial session check and each
    auth-state change do to the store's current user and to the location,
    and when the protected content is shown. The session and the pathname
    are parameters; navigation is reported as the path asked for. */
module AuthProvider {
  import opened Wrappers
  import opened Types
  import Store

  /** `session.user` as far as the guard reads it. */
  datatype SessionUser = SessionUser(id: string, email: Option<string>)

  const LoginPath := "/login"
  const HomePath := "/"

  /** The user record made from a session: the email (or "") as the name and
      always the ordinary role. */
  function UserOf(u: SessionUser): (r: User)
    ensures r.id == u.id && r.role == RegularUser
    ensures u.email.Some? ==> r.name == u.email.value
    ensures u.email.None? ==> r.name == ""
  {
    User(u.id, u.email.GetOr(""), RegularUser)
  }

  /** Where the guard sends the browser: home when signed in on the login
      page, the login page when signed out anywhere else, nowhere otherwise. */
  function Target(signedIn: bool, pathname: string): (to: Option<string>)
    ensures to == Some(HomePath) <==> signedIn && pathname == LoginPath
    ensures to == Some(LoginPath) <==> !signedIn && pathname != LoginPath
    ensures to.None? <==> (signedIn != (pathname == LoginPath))
  {
    if signedIn then (if pathname == LoginPath then Some(HomePath) else None)
    else if pathname != LoginPath then Some(LoginPath) else None
  }

  /** Following the guard's redirect lands where the guard asks for nothing
      more: it never bounces back and forth. */
  lemma TargetSettles(signedIn: bool, pathname: string)
    ensures Target(signedIn, pathname).Some? ==> Target(signedIn, Target(signedIn, pathname).value).None?
  {
  }

  /** The outcome of one guard decision: the store afterwards, the navigation
      asked for, and the provider's loading flag. */
  datatype Decision = Decision(store: Store.State, navigate: Option<string>, isLoading: bool)

  /** The provider before the initial check has answered. */
  const Waiting: bool := true

  /** The initial `getSession` answer. Without a session the current user is
      left as it was; either way loading ends. */
  function InitialSession(st: Store.State, session: Option<SessionUser>, pathname: string): (r: Decision)
    ensures !r.isLoading
    ensures Store.OnlyChanged(st, r.store, {Store.CurrentUserField})
    ensures session.Some? ==> r.store.currentUser == Some(UserOf(session.value))
    ensures session.None? ==> r.store == st
    ensures r.navigate == Target(session.Some?, pathname)
  {
    match session
    case Some(u) => Decision(Store.SetCurrentUser(st, Some(UserOf(u))), Target(true, pathname), false)
    case None => Decision(st, Target(false, pathname), false)
  }

  /** An `onAuthStateChange` event. Without a session the current user is
      cleared; the loading flag is not touched. */
  function AuthChange(st: Store.State, isLoading: bool, session: Option<SessionUser>, pathname: string): (r: Decision)
    ensures r.isLoading == isLoading
    ensures Store.OnlyChanged(st, r.store, {Store.CurrentUserField})
    ensures session.Some? ==> r.store.currentUser == Some(UserOf(session.value))
    ensures session.None? ==> r.store.currentUser == None
    ensures r.navigate == Target(session.Some?, pathname)
  {
    match session
    case Some(u) => Decision(Store.SetCurrentUser(st, Some(UserOf(u))), Target(true, pathname), isLoading)
    case None => Decision(Store.SetCurrentUser(st, None), Target(false, pathname), isLoading)
  }

  /** The protected content renders only once loading has ended. */
  predicate ShowsChildren(isLoading: bool) {
    !isLoading
  }

  /** Neither path ever makes an administrator; the initial check always
      reveals the content, a change event only when loading had ended; and a
      session-less initial check differs from a session-less change event in
      keeping a previously set user. */
  lemma GuardFacts(st: Store.State, isLoading: bool, session: Option<SessionUser>, pathname: string)
    ensures session.Some? ==>
      InitialSession(st, session, pathname).store.currentUser.value.role == RegularUser
    ensures AuthChange(st, isLoading, session, pathname).store.currentUser.Some? ==>
      AuthChange(st, isLoading, session, pathname).store.currentUser.value.role == RegularUser
    ensures !ShowsChildren(Waiting) && ShowsChildren(InitialSession(st, session, pathname).isLoading)
    ensures ShowsChildren(AuthChange(st, isLoading, session, pathname).isLoading) <==> !isLoading
    ensures session.None? ==>
      InitialSession(st, session, pathname).store.currentUser == st.currentUser
      && AuthChange(st, isLoading, session, pathname).store.currentUser == None
  {
  }
}
