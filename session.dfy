/**
 * The single-slot session of auth.service.ts: one optional user, bound by
 * a successful login and cleared by logout, shared by every request. The
 * slot holds whatever `validateUser` returned, which is the password-less
 * projection of a stored user.
 */
module Session {
  import opened Wrappers
  import opened Text
  import opened UserTypes
  import opened Users
  import UserService

  /** The one error `validateUser` turns every login failure into. */
  const BadCredentials := Unauthorized("Invalid credentials")

  /**
   * `validateUser`: the result of `login` when it succeeds, and
   * Unauthorized("Invalid credentials") whatever made it fail.
   */
  function Validate(users: seq<User>, email: Option<string>, password: Option<string>): (r: Result<UserResponse, Exception>)
    ensures r.Ok? <==> Login(users, LoginDto(email, password)).Ok?
    ensures r.Err? ==> r.error == BadCredentials
    ensures r.Ok? ==> exists u :: && u in users && u.email == ToLower(email.value) && u.password == password.value
                                 && r.value == ToUserResponse(u)
  {
    LoginOutcome(users, LoginDto(email, password));
    match Login(users, LoginDto(email, password))
    case Ok(u) => Ok(u)
    case Err(_) => Err(BadCredentials)
  }

  /** What can happen to the slot: a login attempt with its validation outcome, or a logout. */
  datatype Event = SignIn(outcome: Result<UserResponse, Exception>) | SignOut

  /** An event that decides the slot's content: a logout or a successful login. */
  predicate Binds(e: Event) {
    e.SignOut? || e.outcome.Ok?
  }

  /**
   * One transition of the slot: a successful login binds its user, a
   * failed one throws before the slot is touched, a logout clears it.
   */
  function Next(slot: Option<UserResponse>, e: Event): (s: Option<UserResponse>)
    ensures !Binds(e) ==> s == slot
    ensures e.SignOut? ==> s == None
    ensures e.SignIn? && e.outcome.Ok? ==> s == Some(e.outcome.value)
  {
    match e
    case SignOut => None
    case SignIn(Ok(u)) => Some(u)
    case SignIn(Err(_)) => slot
  }

  /** The slot after a sequence of events, applied in order. */
  function Replay(slot: Option<UserResponse>, events: seq<Event>): Option<UserResponse> {
    if events == [] then slot else Next(Replay(slot, events[..|events| - 1]), events[|events| - 1])
  }

  /**
   * Whatever the slot held before, after a sequence of events it holds the
   * user of the last successful login when no logout came after it, and
   * nothing when a logout is the last binding event; with no binding event
   * at all it is unchanged.
   */
  lemma {:induction false} ReplayLastBinding(slot: Option<UserResponse>, events: seq<Event>, i: nat)
    requires i < |events| && Binds(events[i])
    requires forall j :: i < j < |events| ==> !Binds(events[j])
    ensures Replay(slot, events) == Next(None, events[i])
    decreases |events|
  {
    var last := |events| - 1;
    if i < last {
      var prefix := events[..last];
      assert forall j :: i < j < |prefix| ==> !Binds(prefix[j]) by {
        forall j | i < j < |prefix| ensures !Binds(prefix[j]) {
          assert prefix[j] == events[j];
        }
      }
      assert prefix[i] == events[i];
      ReplayLastBinding(slot, prefix, i);
    }
  }

  /** With no binding event, the slot keeps what it held. */
  lemma {:induction false} ReplayWithoutBinding(slot: Option<UserResponse>, events: seq<Event>)
    requires forall j :: 0 <= j < |events| ==> !Binds(events[j])
    ensures Replay(slot, events) == slot
    decreases |events|
  {
    if events != [] {
      var prefix := events[..|events| - 1];
      assert forall j :: 0 <= j < |prefix| ==> !Binds(prefix[j]) by {
        forall j | 0 <= j < |prefix| ensures !Binds(prefix[j]) {
          assert prefix[j] == events[j];
        }
      }
      ReplayWithoutBinding(slot, prefix);
    }
  }

  /**
   * Starting from the empty slot, a bound user is always the user of some
   * successful login that no later logout or login has displaced.
   */
  lemma {:induction false} BoundUserCameFromLogin(events: seq<Event>)
    requires Replay(None, events).Some?
    ensures exists i :: && 0 <= i < |events| && events[i] == SignIn(Ok(Replay(None, events).value))
                        && forall j :: i < j < |events| ==> !Binds(events[j])
    decreases |events|
  {
    var last := |events| - 1;
    if events == [] {
    } else if Binds(events[last]) {
      assert events[last] == SignIn(Ok(Replay(None, events).value));
    } else {
      var prefix := events[..last];
      BoundUserCameFromLogin(prefix);
      var i :| && 0 <= i < |prefix| && prefix[i] == SignIn(Ok(Replay(None, prefix).value))
               && forall j :: i < j < |prefix| ==> !Binds(prefix[j]);
      assert events[i] == prefix[i];
      assert forall j :: i < j < |events| ==> !Binds(events[j]) by {
        forall j | i < j < |events| ensures !Binds(events[j]) {
          if j < last {
            assert events[j] == prefix[j];
          }
        }
      }
    }
  }

  /** auth.service.ts: the slot and the login check it wraps. */
  class AuthService {
    const userService: UserService.UserService
    var currentUser: Option<UserResponse>

    /** The slot starts empty. */
    constructor (userService: UserService.UserService)
      ensures this.userService == userService && currentUser == None
    {
      this.userService := userService;
      currentUser := None;
    }

    /** `validateUser`: `login` on the stored users, any failure mapped to Unauthorized; the slot is not touched. */
    method ValidateUser(email: Option<string>, password: Option<string>) returns (r: Result<UserResponse, Exception>)
      ensures r == Validate(userService.db.Contents(), email, password)
    {
      var user := userService.Login(LoginDto(email, password));
      if user.Err? {
        return Err(BadCredentials);
      }
      return Ok(user.value);
    }

    /** `setCurrentUser`: binds the user, replacing any earlier binding. */
    method SetCurrentUser(user: UserResponse)
      modifies this
      ensures currentUser == Some(user)
    {
      currentUser := Some(user);
    }

    /** `getCurrentUser`: the slot's content, or null. */
    method GetCurrentUser() returns (user: Option<UserResponse>)
      ensures user == currentUser
    {
      user := currentUser;
    }

    /** `clearCurrentUser`: empties the slot whatever it held. */
    method ClearCurrentUser()
      modifies this
      ensures currentUser == None
    {
      currentUser := None;
    }
  }
}
