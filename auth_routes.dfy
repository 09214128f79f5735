/**
 * auth.controller.ts: the three session routes. Login and logout are the
 * slot's two transitions; `me` only reads it.
 */
module AuthRoutes {
  import opened Wrappers
  import opened UserTypes
  import opened Session

  /** A route's JSON answer: a message and the user it concerns, or null. */
  datatype Reply = Reply(message: string, user: Option<UserResponse>)

  /** The answer of `me` for a given slot: the bound user, or null with its own message. */
  function MeReply(slot: Option<UserResponse>): (r: Reply)
    ensures r.user == slot
    ensures slot.None? <==> r.message == "No user logged in"
    ensures slot.Some? <==> r.message == "Current user"
  {
    if slot.None? then Reply("No user logged in", None) else Reply("Current user", slot)
  }

  /** The answer of `login` for a validation outcome; a failure is rethrown as it came. */
  function LoginReply(outcome: Result<UserResponse, Exception>): (r: Result<Reply, Exception>)
    ensures r.Ok? <==> outcome.Ok?
    ensures r.Err? ==> r.error == outcome.error
    ensures r.Ok? ==> r.value == Reply("Login successful", Some(outcome.value))
  {
    match outcome
    case Ok(u) => Ok(Reply("Login successful", Some(u)))
    case Err(e) => Err(e)
  }

  /**
   * After a successful login, `me` answers with exactly the user the login
   * returned; after a logout, with null; a failed login leaves `me`'s
   * answer as it was.
   */
  lemma MeAfterEvents(slot: Option<UserResponse>, outcome: Result<UserResponse, Exception>)
    ensures outcome.Ok? ==> MeReply(Next(slot, SignIn(outcome))).user == LoginReply(outcome).value.user
    ensures outcome.Err? ==> MeReply(Next(slot, SignIn(outcome))) == MeReply(slot)
    ensures MeReply(Next(slot, SignOut)) == Reply("No user logged in", None)
  {
  }

  class AuthController {
    const auth: AuthService

    constructor (auth: AuthService)
      ensures this.auth == auth
    {
      this.auth := auth;
    }

    /**
     * `login`: validates the credentials and only then binds the returned
     * user; a failed validation throws with the previous binding intact.
     */
    method Login(dto: LoginDto) returns (r: Result<Reply, Exception>)
      modifies auth
      ensures var outcome := Validate(auth.userService.db.Contents(), dto.email, dto.password);
              && r == LoginReply(outcome)
              && auth.currentUser == Next(old(auth.currentUser), SignIn(outcome))
    {
      var user := auth.ValidateUser(dto.email, dto.password);
      if user.Err? {
        return Err(user.error);
      }
      auth.SetCurrentUser(user.value);
      return Ok(Reply("Login successful", Some(user.value)));
    }

    /** `logout`: clears the slot, always successfully. */
    method Logout() returns (r: Reply)
      modifies auth
      ensures r == Reply("Logout successful", None)
      ensures auth.currentUser == Next(old(auth.currentUser), SignOut)
    {
      auth.ClearCurrentUser();
      return Reply("Logout successful", None);
    }

    /** `me` (the controller's `getCurrentUser`): reads the slot without changing it. */
    method Me() returns (r: Reply)
      ensures r == MeReply(auth.currentUser)
    {
      var user := auth.GetCurrentUser();
      if user.None? {
        return Reply("No user logged in", None);
      }
      return Reply("Current user", user);
    }
  }
}
