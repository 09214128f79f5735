/**
 * auth-store.ts: the client's authentication state. Each action raises
 * `isLoading`, awaits an API call, then sets the fields from its outcome;
 * the API outcomes are inputs here.
 */
module ClientAuth {
  import opened Wrappers
  import opened ClientTypes

  /** The three fields of the store at one moment. */
  datatype AuthState = AuthState(user: Option<ClientUser>, isLoading: bool, isAuthenticated: bool)

  /** The store's own invariant: it claims to be authenticated exactly when it holds a user. */
  predicate Coherent(s: AuthState) {
    s.isAuthenticated <==> s.user.Some?
  }

  /** The state the store is created in. */
  function Initial(): (s: AuthState)
    ensures s.user.None? && !s.isLoading && !s.isAuthenticated
    ensures Coherent(s)
  {
    AuthState(None, false, false)
  }

  /** Signed in: the user from the response, authenticated, not loading. */
  function SignedIn(u: ClientUser): (s: AuthState)
    ensures Coherent(s) && !s.isLoading && s.user == Some(u)
  {
    AuthState(Some(u), false, true)
  }

  /** Signed out: no user, not authenticated, not loading. */
  function SignedOut(): (s: AuthState)
    ensures Coherent(s) && !s.isLoading && s.user.None?
  {
    AuthState(None, false, false)
  }

  /** `login`: the response's user on success; on failure only `isLoading` drops, and the error is rethrown. */
  function AfterLogin(s: AuthState, response: Result<ClientUser, ApiError>): (t: AuthState)
    ensures !t.isLoading
    ensures response.Ok? ==> t.user == Some(response.value) && t.isAuthenticated
    ensures response.Err? ==> t.user == s.user && t.isAuthenticated == s.isAuthenticated
  {
    match response
    case Ok(u) => SignedIn(u)
    case Err(_) => s.(isLoading := false)
  }

  /**
   * `register`: the account creation, then, only if it succeeded, the
   * login; a failure of either is handled like a failed login.
   */
  function AfterRegister(s: AuthState, created: Result<(), ApiError>, response: Result<ClientUser, ApiError>): (t: AuthState)
    ensures created.Err? ==> t == s.(isLoading := false)
    ensures created.Ok? ==> t == AfterLogin(s, response)
  {
    match created
    case Err(_) => s.(isLoading := false)
    case Ok(_) => AfterLogin(s, response)
  }

  /** What `register` rethrows: the first failing call's error. */
  function RegisterError(created: Result<(), ApiError>, response: Result<ClientUser, ApiError>): (r: Option<ApiError>)
    ensures r.None? <==> created.Ok? && response.Ok?
    ensures created.Err? ==> r == Some(created.error)
    ensures created.Ok? && response.Err? ==> r == Some(response.error)
  {
    if created.Err? then Some(created.error) else if response.Err? then Some(response.error) else None
  }

  /** `checkAuth`: a user in the `me` response signs in; a null user or a failed call signs out. */
  function AfterCheckAuth(me: Result<Option<ClientUser>, ApiError>): (t: AuthState)
    ensures Coherent(t) && !t.isLoading
    ensures t.isAuthenticated <==> me.Ok? && me.value.Some?
    ensures t.isAuthenticated ==> t.user == me.value
  {
    if me.Ok? && me.value.Some? then SignedIn(me.value.value) else SignedOut()
  }

  /** Every action of the store, with the outcomes of the API calls it makes. */
  datatype Action =
    | Login(response: Result<ClientUser, ApiError>)
    | Register(created: Result<(), ApiError>, response: Result<ClientUser, ApiError>)
    | Logout
    | CheckAuth(me: Result<Option<ClientUser>, ApiError>)
    | SetLoading(loading: bool)

  /** The state once an action has finished. `logout` signs out whether or not its call failed. */
  function Step(s: AuthState, a: Action): (t: AuthState)
    ensures a.Logout? ==> t == SignedOut()
    ensures a.SetLoading? ==> t == s.(isLoading := a.loading)
    ensures !a.SetLoading? ==> !t.isLoading
  {
    match a
    case Login(response) => AfterLogin(s, response)
    case Register(created, response) => AfterRegister(s, created, response)
    case Logout => SignedOut()
    case CheckAuth(me) => AfterCheckAuth(me)
    case SetLoading(loading) => s.(isLoading := loading)
  }

  /** Every action keeps the store coherent. */
  lemma StepKeepsCoherent(s: AuthState, a: Action)
    requires Coherent(s)
    ensures Coherent(Step(s, a))
  {
  }

  /** The state after a run of actions from `s`, in order. */
  function Run(s: AuthState, actions: seq<Action>): AuthState {
    if actions == [] then s else Step(Run(s, actions[..|actions| - 1]), actions[|actions| - 1])
  }

  /**
   * From the initial state, whatever actions run, the store is
   * authenticated exactly when it holds a user, and it is not loading once
   * the last action was anything but `setLoading(true)`.
   */
  lemma {:induction false} RunKeepsCoherent(actions: seq<Action>)
    ensures Coherent(Run(Initial(), actions))
    ensures (actions == [] || actions[|actions| - 1] != SetLoading(true)) ==> !Run(Initial(), actions).isLoading
    decreases |actions|
  {
    if actions != [] {
      var prefix := actions[..|actions| - 1];
      RunKeepsCoherent(prefix);
      StepKeepsCoherent(Run(Initial(), prefix), actions[|actions| - 1]);
    }
  }

  /** `register` authenticates a signed-out store only when both the creation and the login succeed. */
  lemma RegisterNeedsBoth(s: AuthState, created: Result<(), ApiError>, response: Result<ClientUser, ApiError>)
    requires !s.isAuthenticated
    ensures AfterRegister(s, created, response).isAuthenticated <==> created.Ok? && response.Ok?
    ensures created.Ok? && response.Ok? ==> AfterRegister(s, created, response).user == Some(response.value)
  {
  }

  /** The store of auth-store.ts. */
  class AuthStore {
    var user: Option<ClientUser>
    var isLoading: bool
    var isAuthenticated: bool

    function State(): AuthState
      reads this
    {
      AuthState(user, isLoading, isAuthenticated)
    }

    /** The store starts signed out and idle. */
    constructor ()
      ensures State() == Initial()
    {
      user := None;
      isLoading := false;
      isAuthenticated := false;
    }

    /** `login`: raise `isLoading`, then sign in with the response, or drop `isLoading` and rethrow. */
    method Login(response: Result<ClientUser, ApiError>) returns (thrown: Option<ApiError>)
      modifies this
      ensures State() == AfterLogin(old(State()), response)
      ensures thrown == if response.Err? then Some(response.error) else None
    {
      isLoading := true;
      if response.Err? {
        isLoading := false;
        return Some(response.error);
      }
      user := Some(response.value);
      isAuthenticated := true;
      isLoading := false;
      return None;
    }

    /** `register`: raise `isLoading`; create, then log in; the first failure drops `isLoading` and is rethrown. */
    method Register(created: Result<(), ApiError>, response: Result<ClientUser, ApiError>) returns (thrown: Option<ApiError>)
      modifies this
      ensures State() == AfterRegister(old(State()), created, response)
      ensures thrown == RegisterError(created, response)
    {
      isLoading := true;
      if created.Err? {
        isLoading := false;
        return Some(created.error);
      }
      if response.Err? {
        isLoading := false;
        return Some(response.error);
      }
      user := Some(response.value);
      isAuthenticated := true;
      isLoading := false;
      return None;
    }

    /** `logout`: raise `isLoading`; whatever the call did, sign out (its error is only logged). */
    method Logout(outcome: Result<(), ApiError>)
      modifies this
      ensures State() == SignedOut()
    {
      isLoading := true;
      user := None;
      isAuthenticated := false;
      isLoading := false;
    }

    /** `checkAuth`: raise `isLoading`, then sign in with the `me` user or sign out. */
    method CheckAuth(me: Result<Option<ClientUser>, ApiError>)
      modifies this
      ensures State() == AfterCheckAuth(me)
    {
      isLoading := true;
      if me.Ok? && me.value.Some? {
        user := me.value;
        isAuthenticated := true;
        isLoading := false;
      } else {
        user := None;
        isAuthenticated := false;
        isLoading := false;
      }
    }

    /** `setLoading`: changes `isLoading` and nothing else. */
    method SetLoading(loading: bool)
      modifies this
      ensures State() == old(State()).(isLoading := loading)
    {
      isLoading := loading;
    }
  }
}
