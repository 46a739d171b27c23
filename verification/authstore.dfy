/**
 * The client's authentication store: the signed-in user, the two tokens and
 * the `isAuthenticated` flag, its transitions, and the slice it persists.
 */
module AuthStore {
  import opened Wrappers

  /** The user record the client keeps. */
  datatype User = User(id: int, email: string, name: string, avatar: Option<string>, createdAt: Option<string>)

  /** A partial user: each field is either supplied or absent. */
  datatype UserPatch = UserPatch(id: Option<int>, email: Option<string>, name: Option<string>,
                                 avatar: Option<Option<string>>, createdAt: Option<Option<string>>)

  const EmptyPatch := UserPatch(None, None, None, None, None)

  datatype Tokens = Tokens(accessToken: string, refreshToken: string)

  /** The store's data; `None` is `null`. */
  datatype State = State(user: Option<User>, accessToken: Option<string>, refreshToken: Option<string>,
                         isAuthenticated: bool)

  /** The state the store is created with. */
  const Initial := State(None, None, None, false)

  /** Signed in means a user and an access token are held. */
  predicate Consistent(st: State) {
    st.isAuthenticated ==> st.user.Some? && st.accessToken.Some?
  }

  /** `setAuth(user, tokens)`. */
  function SetAuth(st: State, user: User, tokens: Tokens): (r: State)
    ensures r.user == Some(user) && r.isAuthenticated
    ensures r.accessToken == Some(tokens.accessToken) && r.refreshToken == Some(tokens.refreshToken)
  {
    State(Some(user), Some(tokens.accessToken), Some(tokens.refreshToken), true)
  }

  /** `{ ...user, ...patch }`. */
  function Apply(u: User, patch: UserPatch): User {
    User(patch.id.GetOr(u.id), patch.email.GetOr(u.email), patch.name.GetOr(u.name),
         patch.avatar.GetOr(u.avatar), patch.createdAt.GetOr(u.createdAt))
  }

  /** `updateUser(patch)`: nothing happens without a user; otherwise only the
      user changes. */
  function UpdateUser(st: State, patch: UserPatch): (r: State)
    ensures st.user.None? ==> r == st
    ensures st.user.Some? ==> r.user == Some(Apply(st.user.value, patch))
    ensures r.accessToken == st.accessToken && r.refreshToken == st.refreshToken
    ensures r.isAuthenticated == st.isAuthenticated
  {
    match st.user
    case None => st
    case Some(u) => st.(user := Some(Apply(u, patch)))
  }

  /** `clearAuth()`. */
  function ClearAuth(st: State): (r: State)
    ensures r.user.None? && r.accessToken.None? && r.refreshToken.None? && !r.isAuthenticated
  {
    Initial
  }

  /** `loadAuthFromStorage()`: the flag is raised when a user and a non-empty
      access token are held, and left alone otherwise. */
  function LoadAuthFromStorage(st: State): (r: State)
    ensures r.isAuthenticated <==> st.isAuthenticated || (st.user.Some? && st.accessToken.Some? && st.accessToken.value != [])
    ensures r.user == st.user && r.accessToken == st.accessToken && r.refreshToken == st.refreshToken
  {
    if st.user.Some? && st.accessToken.Some? && st.accessToken.value != [] then st.(isAuthenticated := true)
    else st
  }

  /** The persisted slice. */
  datatype Persisted = Persisted(user: Option<User>, accessToken: Option<string>, refreshToken: Option<string>,
                                 isAuthenticated: bool)

  /** `partialize`. */
  function Partialize(st: State): Persisted {
    Persisted(st.user, st.accessToken, st.refreshToken, st.isAuthenticated)
  }

  /** Rehydration: the persisted fields are merged over the current state. */
  function Rehydrate(current: State, p: Persisted): State {
    current.(user := p.user, accessToken := p.accessToken, refreshToken := p.refreshToken,
             isAuthenticated := p.isAuthenticated)
  }

  // ---- properties -------------------------------------------------------------

  /** The initial state is signed out; clearing returns to it, and clearing
      twice is clearing once. */
  lemma ClearAuthIdempotent(st: State)
    ensures ClearAuth(st) == Initial
    ensures ClearAuth(ClearAuth(st)) == ClearAuth(st)
    ensures Initial.user.None? && Initial.accessToken.None? && Initial.refreshToken.None? && !Initial.isAuthenticated
  {
  }

  /** Every transition keeps a signed-in store holding a user and an access token. */
  lemma TransitionsConsistent(st: State, user: User, tokens: Tokens, patch: UserPatch)
    requires Consistent(st)
    ensures Consistent(Initial)
    ensures Consistent(SetAuth(st, user, tokens))
    ensures Consistent(UpdateUser(st, patch))
    ensures Consistent(ClearAuth(st))
    ensures Consistent(LoadAuthFromStorage(st))
  {
  }

  /** The flag is never lowered by loading, and loading twice is loading once. */
  lemma LoadAuthMonotone(st: State)
    ensures st.isAuthenticated ==> LoadAuthFromStorage(st).isAuthenticated
    ensures LoadAuthFromStorage(LoadAuthFromStorage(st)) == LoadAuthFromStorage(st)
  {
  }

  /** Supplied fields win and absent ones keep the old value; an empty patch
      changes nothing, and applying a patch twice is applying it once. */
  lemma ApplyPatch(u: User, patch: UserPatch)
    ensures patch.name.Some? ==> Apply(u, patch).name == patch.name.value
    ensures patch.name.None? ==> Apply(u, patch).name == u.name
    ensures patch.email.Some? ==> Apply(u, patch).email == patch.email.value
    ensures patch.email.None? ==> Apply(u, patch).email == u.email
    ensures Apply(u, EmptyPatch) == u
    ensures Apply(Apply(u, patch), patch) == Apply(u, patch)
  {
  }

  /** Updating with an empty patch leaves the store as it was. */
  lemma UpdateUserEmptyPatch(st: State)
    ensures UpdateUser(st, EmptyPatch) == st
  {
    if st.user.Some? {
      ApplyPatch(st.user.value, EmptyPatch);
    }
  }

  /** The persisted slice is the whole state: rehydrating it over any state
      restores the state it was taken from. */
  lemma PersistRoundTrip(st: State, current: State)
    ensures Rehydrate(current, Partialize(st)) == st
  {
  }

  /** Signing in and then clearing leaves no user and no tokens in the persisted slice. */
  lemma SignOutForgets(st: State, user: User, tokens: Tokens)
    ensures Partialize(ClearAuth(SetAuth(st, user, tokens))) == Persisted(None, None, None, false)
  {
  }
}
