/**
 * user.service.ts as a class over the user store: each method runs the
 * guards in the source's order, consulting the store where the source
 * does, and is proved to have the result and the file effect of the
 * matching step function in `Users`.
 */
module UserService {
  import opened Wrappers
  import opened Text
  import opened FlatFile
  import opened UserTypes
  import opened UserStore
  import opened Users

  class UserService {
    const db: UserDatabase

    constructor (db: UserDatabase)
      ensures this.db == db
    {
      this.db := db;
    }

    /** `findAll`: every stored user without its password, in storage order. */
    method FindAll() returns (users: seq<UserResponse>)
      ensures users == AllResponses(db.Contents())
    {
      var records := db.FindAll();
      users := AllResponses(records);
    }

    /** `findOne`: BadRequest for a non-positive id, NotFound for an absent one, else the projection. */
    method FindOne(id: int) returns (r: Result<UserResponse, Exception>)
      ensures r == FindOneResult(db.Contents(), id)
    {
      if id <= 0 {
        return Err(InvalidUserId);
      }
      var user := db.FindOne(id);
      if user.None? {
        return Err(UserNotFound(id));
      }
      return Ok(ToUserResponse(user.value));
    }

    /** `create`: the four field guards, the two store lookups, then the append of the normalised fields. */
    method Create(dto: CreateUserDto, now: Timestamp) returns (r: Result<UserResponse, Exception>)
      modifies db
      ensures (r, db.file) == CreateStep(old(db.file), dto, now)
    {
      if dto.username.None? || |Trim(dto.username.value)| == 0 {
        return Err(BadRequest("Username is required"));
      }
      if dto.email.None? || |Trim(dto.email.value)| == 0 {
        return Err(BadRequest("Email is required"));
      }
      if dto.password.None? || |dto.password.value| < MinPasswordLength {
        return Err(BadRequest("Password must be at least 6 characters"));
      }
      if !IsEmail(dto.email.value) {
        return Err(BadRequest("Invalid email format"));
      }
      var byEmail := db.FindByEmail(dto.email.value);
      if byEmail.Some? {
        return Err(Conflict("Email already exists"));
      }
      var byUsername := db.FindByUsername(dto.username.value);
      if byUsername.Some? {
        return Err(Conflict("Username already exists"));
      }
      var data := UserData(Trim(dto.username.value), ToLower(Trim(dto.email.value)), dto.password.value);
      var u := db.Create(data, now);
      return Ok(ToUserResponse(u));
    }

    /** The username section of `update`: the blank guard, then the lookup of the raw username. */
    method UsernameSection(id: int, username: Option<string>) returns (r: Result<Option<string>, Exception>)
      ensures r == UsernameUpdate(db.Contents(), id, username)
    {
      if username.None? {
        return Ok(None);
      }
      if |Trim(username.value)| == 0 {
        return Err(BadRequest("Username cannot be empty"));
      }
      var existing := db.FindByUsername(username.value);
      if existing.Some? && existing.value.id != id {
        return Err(Conflict("Username already exists"));
      }
      return Ok(Some(Trim(username.value)));
    }

    /** The email section of `update`: the blank and pattern guards, then the lookup of the raw email. */
    method EmailSection(id: int, email: Option<string>) returns (r: Result<Option<string>, Exception>)
      ensures r == EmailUpdate(db.Contents(), id, email)
    {
      if email.None? {
        return Ok(None);
      }
      if |Trim(email.value)| == 0 {
        return Err(BadRequest("Email cannot be empty"));
      }
      if !IsEmail(email.value) {
        return Err(BadRequest("Invalid email format"));
      }
      var existing := db.FindByEmail(email.value);
      if existing.Some? && existing.value.id != id {
        return Err(Conflict("Email already exists"));
      }
      return Ok(Some(ToLower(Trim(email.value))));
    }

    /**
     * `update`: id guard, `findOne`, then each supplied field's section in
     * turn, then the store's merge of the collected fields.
     */
    method Update(id: int, dto: UpdateUserDto, now: Timestamp) returns (r: Result<UserResponse, Exception>)
      modifies db
      ensures (r, db.file) == UpdateStep(old(db.file), id, dto, now)
    {
      if id <= 0 {
        return Err(InvalidUserId);
      }
      var found := FindOne(id);
      if found.Err? {
        return Err(found.error);
      }
      var username := UsernameSection(id, dto.username);
      if username.Err? {
        return Err(username.error);
      }
      var email := EmailSection(id, dto.email);
      if email.Err? {
        return Err(email.error);
      }
      var password := PasswordUpdate(dto.password);
      if password.Err? {
        return Err(password.error);
      }
      var updated := db.Update(id, UserPatch(username.value, email.value, password.value), now);
      if updated.None? {
        return Err(UserNotFound(id));
      }
      return Ok(ToUserResponse(updated.value));
    }

    /** `remove`: id guard, then the store's splice; nothing removed is NotFound. */
    method Remove(id: int) returns (r: Result<(), Exception>)
      modifies db
      ensures (r, db.file) == RemoveStep(old(db.file), id)
    {
      if id <= 0 {
        return Err(InvalidUserId);
      }
      var deleted := db.Remove(id);
      if !deleted {
        return Err(UserNotFound(id));
      }
      return Ok(());
    }

    /** `login`: both fields present, the lookup by the lower-cased email, the password comparison. */
    method Login(dto: LoginDto) returns (r: Result<UserResponse, Exception>)
      ensures r == Users.Login(db.Contents(), dto)
    {
      if dto.email.None? || dto.email.value == "" || dto.password.None? || dto.password.value == "" {
        return Err(BadRequest("Email and password are required"));
      }
      var user := db.FindByEmail(ToLower(dto.email.value));
      if user.None? {
        return Err(InvalidCredentials);
      }
      if user.value.password != dto.password.value {
        return Err(InvalidCredentials);
      }
      return Ok(ToUserResponse(user.value));
    }
  }
}
