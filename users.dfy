/**
 * The validation layer of user.service.ts: ordered guards that throw
 * BadRequest, NotFound or Conflict, the email pattern, and the projection
 * that strips the password from every user the service returns.
 */
module Users {
  import opened Wrappers
  import opened Text
  import opened FlatFile
  import opened UserTypes
  import opened UserStore

  /** The shortest password accepted, on registration and on update. */
  const MinPasswordLength := 6

  const InvalidUserId := BadRequest("Invalid user ID")

  /** The one answer for an unknown email and for a wrong password alike. */
  const InvalidCredentials := NotFound("Invalid email or password")

  function UserNotFound(id: int): Exception {
    NotFound("User with ID " + IntToString(id) + " not found")
  }

  /** `[^\s@]`: any character but whitespace and '@'. */
  predicate EmailChar(c: char) {
    !IsSpace(c) && c != '@'
  }

  /**
   * The pattern `^[^\s@]+@[^\s@]+\.[^\s@]+$` with '@' at `at` and the
   * chosen '.' at `dot`: all three parts are non-empty and every other
   * character, the dot included, is an `EmailChar`.
   */
  predicate EmailSplit(s: string, at: int, dot: int) {
    && 0 < at && at + 1 < dot && dot + 1 < |s|
    && s[at] == '@' && s[dot] == '.'
    && forall i :: 0 <= i < |s| && i != at ==> EmailChar(s[i])
  }

  /**
   * `emailRegex.test(s)`: a non-empty local part, '@', a non-empty part,
   * a '.', and a non-empty tail, none of them holding whitespace or '@'.
   * The part before the chosen '.' may itself hold dots.
   */
  function IsEmail(s: string): (b: bool)
    ensures b ==> |s| >= 5 && !IsSpace(s[0]) && !IsSpace(s[|s| - 1]) && '@' in s
  {
    exists at, dot :: 0 <= at < |s| && 0 <= dot < |s| && EmailSplit(s, at, dot)
  }

  /** A string matching the pattern has exactly one '@' and no whitespace. */
  lemma EmailSpaceFree(s: string)
    requires IsEmail(s)
    ensures SpaceFree(s)
    ensures exists at :: 0 <= at < |s| && s[at] == '@' && forall i :: 0 <= i < |s| && i != at ==> s[i] != '@'
  {
    var at, dot :| 0 <= at < |s| && 0 <= dot < |s| && EmailSplit(s, at, dot);
    forall i | 0 <= i < |s| ensures !IsSpace(s[i]) {
      if i != at {
        assert EmailChar(s[i]);
      }
    }
  }

  /** So a string matching the pattern is not blank and `trim` leaves it alone. */
  lemma EmailTrimmed(s: string)
    requires IsEmail(s)
    ensures !IsBlank(s) && Trim(s) == s
  {
    EmailSpaceFree(s);
    assert !IsSpace(s[0]);
    TrimSpaceFree(s);
  }

  /** Lower-casing maps a pattern character to a pattern character. */
  lemma LowerKeepsEmailChar(c: char)
    requires EmailChar(c)
    ensures EmailChar(LowerChar(c))
  {
  }

  /** Lower-casing keeps a string matching the pattern: letters stay letters, '@' and '.' stay put. */
  lemma LowerKeepsEmail(s: string)
    requires IsEmail(s)
    ensures IsEmail(ToLower(s))
  {
    var at, dot :| 0 <= at < |s| && 0 <= dot < |s| && EmailSplit(s, at, dot);
    var l := ToLower(s);
    forall i | 0 <= i < |l| && i != at ensures EmailChar(l[i]) {
      assert EmailChar(s[i]);
      LowerKeepsEmailChar(s[i]);
    }
    assert l[at] == '@' && l[dot] == '.';
    assert EmailSplit(l, at, dot);
  }

  /**
   * What the services store for an email that matched the pattern: `trim`
   * has nothing to strip, and the lower-cased value still matches and is its
   * own lower case.
   */
  lemma StoredEmail(s: string)
    requires IsEmail(s)
    ensures |Trim(s)| > 0 && ToLower(Trim(s)) == ToLower(s)
    ensures IsEmail(ToLower(s)) && ToLower(ToLower(s)) == ToLower(s)
  {
    EmailTrimmed(s);
    LowerKeepsEmail(s);
    ToLowerIdempotent(s);
  }

  /** Strings the pattern accepts and refuses. */
  lemma EmailExamples()
    ensures IsEmail("a@b.co") && IsEmail("A@b.co") && IsEmail("first.last@mail.example.org")
    ensures !IsEmail("a@b") && !IsEmail("@b.co") && !IsEmail("a@.co") && !IsEmail("a@b.") && !IsEmail("a b@c.d")
    ensures !IsEmail("a@b@c.d")
  {
    assert EmailSplit("a@b.co", 1, 3);
    assert EmailSplit("A@b.co", 1, 3);
    assert EmailSplit("first.last@mail.example.org", 10, 23);
    NotEmailWithSpace("a b@c.d", 1);
    NotEmailWithTwoAts("a@b@c.d", 1, 3);
  }

  /** A string holding whitespace does not match. */
  lemma NotEmailWithSpace(s: string, i: int)
    requires 0 <= i < |s| && IsSpace(s[i])
    ensures !IsEmail(s)
  {
    if IsEmail(s) {
      EmailSpaceFree(s);
      assert false;
    }
  }

  /** A string holding two '@' does not match. */
  lemma NotEmailWithTwoAts(s: string, i: int, j: int)
    requires 0 <= i < j < |s| && s[i] == '@' && s[j] == '@'
    ensures !IsEmail(s)
  {
    if IsEmail(s) {
      EmailSpaceFree(s);
      assert false;
    }
  }

  /** toUserResponse: the record without its password. */
  function ToUserResponse(u: User): (r: UserResponse)
    ensures r.id == u.id && r.username == u.username && r.email == u.email
    ensures r.createdAt == u.createdAt && r.updatedAt == u.updatedAt
  {
    UserResponse(u.id, u.username, u.email, u.createdAt, u.updatedAt)
  }

  /** The projection forgets the password and nothing else. */
  lemma ResponseForgetsOnlyPassword(a: User, b: User)
    ensures ToUserResponse(a) == ToUserResponse(b) <==> a.(password := b.password) == b
  {
  }

  /** `findAll`: every stored user, projected, in storage order. */
  function AllResponses(users: seq<User>): (rs: seq<UserResponse>)
    ensures |rs| == |users|
    ensures forall i :: 0 <= i < |users| ==> rs[i] == ToUserResponse(users[i])
  {
    seq(|users|, i requires 0 <= i < |users| => ToUserResponse(users[i]))
  }

  /** The guards of `findOne`: a positive id, then a stored user with it, returned projected. */
  function FindOneResult(users: seq<User>, id: int): (r: Result<UserResponse, Exception>)
    ensures id <= 0 ==> r == Err(InvalidUserId)
    ensures id > 0 ==> (r.Err? <==> forall u :: u in users ==> u.id != id)
    ensures id > 0 && r.Err? ==> r.error == UserNotFound(id)
    ensures r.Ok? ==> exists u :: u in users && u.id == id && r.value == ToUserResponse(u)
  {
    if id <= 0 then Err(InvalidUserId)
    else
      match FindById(users, id)
      case None => Err(UserNotFound(id))
      case Some(u) => Ok(ToUserResponse(u))
  }

  /** Some stored user has exactly this email. */
  predicate EmailTaken(users: seq<User>, email: string) {
    exists u :: u in users && u.email == email
  }

  /** Some stored user has exactly this username. */
  predicate UsernameTaken(users: seq<User>, username: string) {
    exists u :: u in users && u.username == username
  }

  /** The four BadRequest guards of `create`, which do not look at the store, all pass. */
  predicate CreateFieldsValid(dto: CreateUserDto) {
    && dto.username.Some? && !IsBlank(dto.username.value)
    && dto.email.Some? && !IsBlank(dto.email.value)
    && dto.password.Some? && |dto.password.value| >= MinPasswordLength
    && IsEmail(dto.email.value)
  }

  /**
   * The first of `create`'s BadRequest guards that fails, in the source's
   * order (username, email, password length, email pattern), or `None`.
   * Blankness is judged after trimming; the pattern sees the raw email.
   */
  function CreateFieldError(dto: CreateUserDto): (e: Option<Exception>)
    ensures e.None? <==> CreateFieldsValid(dto)
  {
    TrimEmptyIffBlank(dto.username.GetOr(""));
    TrimEmptyIffBlank(dto.email.GetOr(""));
    if dto.username.None? || |Trim(dto.username.value)| == 0 then
      Some(BadRequest("Username is required"))
    else if dto.email.None? || |Trim(dto.email.value)| == 0 then
      Some(BadRequest("Email is required"))
    else if dto.password.None? || |dto.password.value| < MinPasswordLength then
      Some(BadRequest("Password must be at least 6 characters"))
    else if !IsEmail(dto.email.value) then
      Some(BadRequest("Invalid email format"))
    else
      None
  }

  /** The first failing field guard of `create` decides the error. */
  lemma CreateGuardOrder(dto: CreateUserDto)
    ensures (dto.username.None? || IsBlank(dto.username.value))
            ==> CreateFieldError(dto) == Some(BadRequest("Username is required"))
    ensures (dto.username.Some? && !IsBlank(dto.username.value) && (dto.email.None? || IsBlank(dto.email.value)))
            ==> CreateFieldError(dto) == Some(BadRequest("Email is required"))
    ensures (&& dto.username.Some? && !IsBlank(dto.username.value) && dto.email.Some? && !IsBlank(dto.email.value)
             && (dto.password.None? || |dto.password.value| < MinPasswordLength))
            ==> CreateFieldError(dto) == Some(BadRequest("Password must be at least 6 characters"))
    ensures (&& dto.username.Some? && !IsBlank(dto.username.value) && dto.email.Some? && !IsBlank(dto.email.value)
             && dto.password.Some? && |dto.password.value| >= MinPasswordLength && !IsEmail(dto.email.value))
            ==> CreateFieldError(dto) == Some(BadRequest("Invalid email format"))
  {
    if dto.username.Some? {
      TrimEmptyIffBlank(dto.username.value);
    }
    if dto.email.Some? {
      TrimEmptyIffBlank(dto.email.value);
    }
  }

  /**
   * The guards of `create`, in their order, and the data it hands the
   * store. The conflict lookups use the raw input; the record stores the
   * username trimmed and the email trimmed and lower-cased.
   */
  function ValidateCreate(users: seq<User>, dto: CreateUserDto): (r: Result<UserData, Exception>)
    ensures r.Err? ==> r.error.BadRequest? || r.error.Conflict?
    ensures r.Ok? ==> && CreateFieldsValid(dto)
                      && !EmailTaken(users, dto.email.value) && !UsernameTaken(users, dto.username.value)
  {
    match CreateFieldError(dto)
    case Some(e) => Err(e)
    case None =>
      if FirstWithEmail(users, dto.email.value).Some? then
        Err(Conflict("Email already exists"))
      else if FirstWithUsername(users, dto.username.value).Some? then
        Err(Conflict("Username already exists"))
      else
        Ok(UserData(Trim(dto.username.value), ToLower(Trim(dto.email.value)), dto.password.value))
  }

  /**
   * A failing field guard decides the error before the store is consulted;
   * once the fields pass, `create` is a Conflict exactly when a stored
   * record has the raw email (checked first) or the raw username.
   */
  lemma CreateConflicts(users: seq<User>, dto: CreateUserDto)
    ensures CreateFieldError(dto).Some? ==> ValidateCreate(users, dto) == Err(CreateFieldError(dto).value)
    ensures CreateFieldsValid(dto) && EmailTaken(users, dto.email.value)
            ==> ValidateCreate(users, dto) == Err(Conflict("Email already exists"))
    ensures CreateFieldsValid(dto) && !EmailTaken(users, dto.email.value) && UsernameTaken(users, dto.username.value)
            ==> ValidateCreate(users, dto) == Err(Conflict("Username already exists"))
    ensures ValidateCreate(users, dto).Ok?
            <==> CreateFieldsValid(dto) && !EmailTaken(users, dto.email.value) && !UsernameTaken(users, dto.username.value)
  {
  }

  /**
   * What `create` stores: the username trimmed, the email lower-cased (a
   * valid email has nothing to trim), the password verbatim; the stored
   * email still matches the pattern and is its own lower case.
   */
  lemma CreateStoresNormalised(users: seq<User>, dto: CreateUserDto)
    requires ValidateCreate(users, dto).Ok?
    ensures CreateFieldsValid(dto)
    ensures var data := ValidateCreate(users, dto).value;
            && data.username == Trim(dto.username.value)
            && data.email == ToLower(dto.email.value)
            && data.password == dto.password.value
            && IsEmail(data.email) && ToLower(data.email) == data.email
  {
    var data := ValidateCreate(users, dto).value;
    assert data == UserData(Trim(dto.username.value), ToLower(Trim(dto.email.value)), dto.password.value);
    StoredEmail(dto.email.value);
  }

  /** `create` on a store whose file holds `file`: the projected result and the file afterwards. */
  function CreateStep(file: Option<seq<User>>, dto: CreateUserDto, now: Timestamp)
    : (s: (Result<UserResponse, Exception>, Option<seq<User>>))
    ensures s.0.Err? ==> s.1 == file
    ensures s.0.Ok? ==> exists u :: s.1 == Some(Load(file) + [u]) && s.0.value == ToUserResponse(u)
                                    && forall x :: x in Load(file) ==> x.id < u.id
  {
    var users := Load(file);
    match ValidateCreate(users, dto)
    case Err(e) => (Err(e), file)
    case Ok(data) =>
      var u := NewUser(users, data, now);
      (Ok(ToUserResponse(u)), Some(users + [u]))
  }

  /** A supplied username clashes when the first record holding it belongs to someone else. */
  predicate UsernameClash(users: seq<User>, id: int, username: string) {
    FirstWithUsername(users, username).Some? && FirstWithUsername(users, username).value.id != id
  }

  /** A supplied email clashes when the first record holding it belongs to someone else. */
  predicate EmailClash(users: seq<User>, id: int, email: string) {
    FirstWithEmail(users, email).Some? && FirstWithEmail(users, email).value.id != id
  }

  /**
   * The username section of `update`: absent, nothing to change; present,
   * refused when blank or held (raw) by another user's first record, else
   * the trimmed value.
   */
  function UsernameUpdate(users: seq<User>, id: int, username: Option<string>): (r: Result<Option<string>, Exception>)
    ensures username.None? ==> r == Ok(None)
    ensures r.Ok? <==> username.None? || (!IsBlank(username.value) && !UsernameClash(users, id, username.value))
    ensures r.Ok? && username.Some? ==> r.value == Some(Trim(username.value))
    ensures username.Some? && IsBlank(username.value) ==> r == Err(BadRequest("Username cannot be empty"))
    ensures username.Some? && !IsBlank(username.value) && UsernameClash(users, id, username.value)
            ==> r == Err(Conflict("Username already exists"))
  {
    match username
    case None => Ok(None)
    case Some(u) =>
      TrimEmptyIffBlank(u);
      if |Trim(u)| == 0 then Err(BadRequest("Username cannot be empty"))
      else if UsernameClash(users, id, u) then Err(Conflict("Username already exists"))
      else Ok(Some(Trim(u)))
  }

  /**
   * The email section of `update`: absent, nothing to change; present,
   * refused when blank, malformed or held (raw) by another user's first
   * record, else the trimmed, lower-cased value, which still matches.
   */
  function EmailUpdate(users: seq<User>, id: int, email: Option<string>): (r: Result<Option<string>, Exception>)
    ensures email.None? ==> r == Ok(None)
    ensures r.Ok? <==> email.None? || (IsEmail(email.value) && !EmailClash(users, id, email.value))
    ensures r.Ok? && email.Some? ==> r.value == Some(ToLower(email.value)) && IsEmail(r.value.value)
    ensures email.Some? && IsBlank(email.value) ==> r == Err(BadRequest("Email cannot be empty"))
    ensures email.Some? && !IsBlank(email.value) && !IsEmail(email.value) ==> r == Err(BadRequest("Invalid email format"))
    ensures email.Some? && IsEmail(email.value) && EmailClash(users, id, email.value)
            ==> r == Err(Conflict("Email already exists"))
  {
    match email
    case None => Ok(None)
    case Some(e) =>
      TrimEmptyIffBlank(e);
      if |Trim(e)| == 0 then
        Err(BadRequest("Email cannot be empty"))
      else if !IsEmail(e) then
        Err(BadRequest("Invalid email format"))
      else
        StoredEmail(e);
        if EmailClash(users, id, e) then Err(Conflict("Email already exists"))
        else Ok(Some(ToLower(Trim(e))))
  }

  /** The password section of `update`: refused under 6 characters, else stored verbatim. */
  function PasswordUpdate(password: Option<string>): (r: Result<Option<string>, Exception>)
    ensures r.Ok? <==> password.None? || |password.value| >= MinPasswordLength
    ensures r.Ok? ==> r.value == password
    ensures r.Err? ==> r.error == BadRequest("Password must be at least 6 characters")
  {
    match password
    case None => Ok(None)
    case Some(p) =>
      if |p| < MinPasswordLength then Err(BadRequest("Password must be at least 6 characters"))
      else Ok(Some(p))
  }

  /**
   * The fields `update` hands the store, built section by section from the
   * supplied fields only, or the error of the first section that fails.
   */
  function UpdatePatch(users: seq<User>, id: int, dto: UpdateUserDto): (r: Result<UserPatch, Exception>)
    ensures r.Ok? <==> UsernameUpdate(users, id, dto.username).Ok? && EmailUpdate(users, id, dto.email).Ok?
                       && PasswordUpdate(dto.password).Ok?
    ensures UsernameUpdate(users, id, dto.username).Err? ==> r == Err(UsernameUpdate(users, id, dto.username).error)
    ensures UsernameUpdate(users, id, dto.username).Ok? && EmailUpdate(users, id, dto.email).Err?
            ==> r == Err(EmailUpdate(users, id, dto.email).error)
    ensures r.Ok? ==> r.value == UserPatch(UsernameUpdate(users, id, dto.username).value,
                                           EmailUpdate(users, id, dto.email).value, dto.password)
  {
    match UsernameUpdate(users, id, dto.username)
    case Err(e) => Err(e)
    case Ok(username) =>
      match EmailUpdate(users, id, dto.email)
      case Err(e) => Err(e)
      case Ok(email) =>
        match PasswordUpdate(dto.password)
        case Err(e) => Err(e)
        case Ok(password) => Ok(UserPatch(username, email, password))
  }

  /** `update`: id guard, existence, field guards, then the store's merge; the result is projected. */
  function UpdateStep(file: Option<seq<User>>, id: int, dto: UpdateUserDto, now: Timestamp)
    : (s: (Result<UserResponse, Exception>, Option<seq<User>>))
    ensures s.0.Err? ==> s.1 == file
    ensures s.0.Ok? ==> id > 0 && s.0.value.id == id && s.1.Some? && |s.1.value| == |Load(file)|
  {
    if id <= 0 then (Err(InvalidUserId), file)
    else
      var users := Load(file);
      match FindOneResult(users, id)
      case Err(e) => (Err(e), file)
      case Ok(_) =>
        match UpdatePatch(users, id, dto)
        case Err(e) => (Err(e), file)
        case Ok(patch) =>
          var k := FindIndex(Ids(users), id);
          if k == -1 then (Err(UserNotFound(id)), file)
          else
            var updated := MergeUser(users[k], patch, now);
            (Ok(ToUserResponse(updated)), Some(users[k := updated]))
  }

  /** `remove`: id guard, then the store's splice; a false from the store is NotFound. */
  function RemoveStep(file: Option<seq<User>>, id: int): (s: (Result<(), Exception>, Option<seq<User>>))
    ensures s.0.Err? ==> s.1 == file
    ensures s.0.Ok? ==> id > 0 && s.1.Some? && |s.1.value| == |Load(file)| - 1
  {
    if id <= 0 then (Err(InvalidUserId), file)
    else
      var users := Load(file);
      var k := FindIndex(Ids(users), id);
      if k == -1 then (Err(UserNotFound(id)), file)
      else (Ok(()), Some(RemoveAt(users, k)))
  }

  /**
   * `login`: both fields non-empty, then the first user with the
   * lower-cased email, then an exact password comparison. The input email is
   * lower-cased but not trimmed.
   */
  function Login(users: seq<User>, dto: LoginDto): (r: Result<UserResponse, Exception>)
    ensures r.Err? ==> r.error == BadRequest("Email and password are required") || r.error == InvalidCredentials
    ensures r.Ok? ==> dto.email.Some? && dto.email.value != "" && dto.password.Some? && dto.password.value != ""
  {
    if dto.email.None? || dto.email.value == "" || dto.password.None? || dto.password.value == "" then
      Err(BadRequest("Email and password are required"))
    else
      match FirstWithEmail(users, ToLower(dto.email.value))
      case None => Err(InvalidCredentials)
      case Some(u) =>
        if u.password != dto.password.value then Err(InvalidCredentials)
        else Ok(ToUserResponse(u))
  }

  /** The outcomes of `login`: the first user with the lower-cased email, if its password matches, else one NotFound for both failures. */
  lemma LoginOutcome(users: seq<User>, dto: LoginDto)
    ensures (dto.email.None? || dto.email.value == "" || dto.password.None? || dto.password.value == "")
            ==> Login(users, dto) == Err(BadRequest("Email and password are required"))
    ensures (&& dto.email.Some? && dto.email.value != "" && dto.password.Some? && dto.password.value != ""
             && Login(users, dto).Err?) ==> Login(users, dto).error == InvalidCredentials
    ensures (&& dto.email.Some? && dto.email.value != "" && dto.password.Some? && dto.password.value != ""
             && forall u :: u in users ==> u.email != ToLower(dto.email.value))
            ==> Login(users, dto) == Err(InvalidCredentials)
    ensures Login(users, dto).Ok? ==>
            exists u :: u in users && u.email == ToLower(dto.email.value) && u.password == dto.password.value
                        && Login(users, dto).value == ToUserResponse(u)
  {
  }

  /**
   * When one user alone holds the lower-cased email, login succeeds
   * exactly with that user's password; a wrong password and an unknown
   * email are answered alike.
   */
  lemma LoginWithUniqueEmail(users: seq<User>, dto: LoginDto, k: nat)
    requires k < |users| && dto.email.Some? && dto.email.value != "" && dto.password.Some? && dto.password.value != ""
    requires users[k].email == ToLower(dto.email.value)
    requires forall j :: 0 <= j < |users| && j != k ==> users[j].email != users[k].email
    ensures Login(users, dto).Ok? <==> users[k].password == dto.password.value
    ensures Login(users, dto).Ok? ==> Login(users, dto).value == ToUserResponse(users[k])
  {
    var r := FirstWithEmail(users, ToLower(dto.email.value));
    assert r == Some(users[k]) by {
      assert users[k] in users;
      var i :| 0 <= i < |users| && users[i] == r.value;
      assert i == k;
    }
  }

  /** A failing `create` leaves the file as it was; a successful one appends one record and returns it projected. */
  lemma CreateStepOk(file: Option<seq<User>>, dto: CreateUserDto, now: Timestamp)
    requires ValidateCreate(Load(file), dto).Ok?
    ensures var u := NewUser(Load(file), ValidateCreate(Load(file), dto).value, now);
            CreateStep(file, dto, now) == (Ok(ToUserResponse(u)), Some(Load(file) + [u]))
  {
  }

  /**
   * Registering and then logging in with the same email and password
   * returns the new account, provided no earlier record already holds the
   * lower-cased email.
   */
  lemma RegisterThenLogin(file: Option<seq<User>>, dto: CreateUserDto, now: Timestamp)
    requires ValidateCreate(Load(file), dto).Ok?
    requires forall u :: u in Load(file) ==> u.email != ToLower(dto.email.value)
    ensures var (r, after) := CreateStep(file, dto, now);
            r.Ok? && Login(Load(after), LoginDto(dto.email, dto.password)) == r
  {
    var before := Load(file);
    CreateStoresNormalised(before, dto);
    var u := NewUser(before, ValidateCreate(before, dto).value, now);
    assert dto.email.value != "" && dto.password.value != "" by {
      assert !IsBlank(dto.email.value) && |dto.password.value| >= MinPasswordLength;
    }
    CreateStepOk(file, dto, now);
    LoginAppended(before, u, LoginDto(dto.email, dto.password));
  }

  /** A record appended with an email no earlier record holds is the one `login` finds, given its password. */
  lemma LoginAppended(before: seq<User>, u: User, dto: LoginDto)
    requires dto.email.Some? && dto.email.value != "" && dto.password.Some? && dto.password.value != ""
    requires u.email == ToLower(dto.email.value) && u.password == dto.password.value
    requires forall x :: x in before ==> x.email != u.email
    ensures Login(before + [u], dto) == Ok(ToUserResponse(u))
  {
    var after := before + [u];
    assert after[|before|] == u;
    assert forall j :: 0 <= j < |after| && j != |before| ==> after[j].email != u.email by {
      forall j | 0 <= j < |after| && j != |before| ensures after[j].email != u.email {
        assert after[j] == before[j] && before[j] in before;
      }
    }
    LoginWithUniqueEmail(after, dto, |before|);
  }

  /**
   * The conflict check compares the raw email with the stored, lower-cased
   * ones: an address that differs from a stored one only in case (say
   * "A@b.co" beside "a@b.co") passes every guard, and `create` appends a
   * second record with the same stored email.
   */
  lemma CaseVariantEmailSlipsThrough(file: Option<seq<User>>, dto: CreateUserDto, now: Timestamp, k: nat)
    requires CreateFieldsValid(dto)
    requires !EmailTaken(Load(file), dto.email.value) && !UsernameTaken(Load(file), dto.username.value)
    requires k < |Load(file)| && Load(file)[k].email == ToLower(dto.email.value)
    ensures var (r, after) := CreateStep(file, dto, now);
            && r.Ok? && after.Some? && |after.value| == |Load(file)| + 1
            && after.value[|Load(file)|].email == Load(file)[k].email
            && after.value[|Load(file)|].id == r.value.id
  {
    var before := Load(file);
    CreateConflicts(before, dto);
    CreateStoresNormalised(before, dto);
    CreateStepOk(file, dto, now);
  }

  /** `login` answers with the first user holding the lower-cased email, never a later one. */
  lemma LoginStopsAtFirst(users: seq<User>, dto: LoginDto, k: nat)
    requires k < |users| && dto.email.Some? && users[k].email == ToLower(dto.email.value)
    ensures Login(users, dto).Ok? ==>
            exists i :: 0 <= i <= k && Login(users, dto).value == ToUserResponse(users[i])
  {
    var email := ToLower(dto.email.value);
    assert Emails(users)[k] == email;
    if Login(users, dto).Ok? {
      var w := First(users, Emails(users), email);
      assert FirstWithEmail(users, email) == w;
      var i :| 0 <= i < |users| && users[i] == w.value && Emails(users)[i] == email
               && forall j :: 0 <= j < i ==> Emails(users)[j] != email;
      assert i <= k;
      assert Login(users, dto).value == ToUserResponse(users[i]);
    }
  }

  /**
   * Right after it is created, such a duplicate cannot log in: the lookup
   * by email stops at the older record, so `login` with the new account's
   * own email and password does not return the new account.
   */
  lemma CaseVariantDuplicateCannotLogIn(file: Option<seq<User>>, dto: CreateUserDto, now: Timestamp, k: nat)
    requires CreateFieldsValid(dto)
    requires !EmailTaken(Load(file), dto.email.value) && !UsernameTaken(Load(file), dto.username.value)
    requires k < |Load(file)| && Load(file)[k].email == ToLower(dto.email.value)
    ensures var (r, after) := CreateStep(file, dto, now);
            r.Ok? && Login(Load(after), LoginDto(dto.email, dto.password)) != r
  {
    var before := Load(file);
    CaseVariantEmailSlipsThrough(file, dto, now, k);
    CreateConflicts(before, dto);
    CreateStepOk(file, dto, now);
    var u := NewUser(before, ValidateCreate(before, dto).value, now);
    LoginMissesAppended(before, u, LoginDto(dto.email, dto.password), k);
  }

  /** Behind an earlier record with the same lower-cased email, an appended record with a fresh id is never the one `login` returns. */
  lemma LoginMissesAppended(before: seq<User>, u: User, dto: LoginDto, k: nat)
    requires k < |before| && dto.email.Some? && before[k].email == ToLower(dto.email.value)
    requires forall x :: x in before ==> x.id < u.id
    ensures Login(before + [u], dto) != Ok(ToUserResponse(u))
  {
    var users := before + [u];
    assert users[k] == before[k];
    LoginStopsAtFirst(users, dto, k);
    assert forall i :: 0 <= i <= k ==> users[i] == before[i] && before[i] in before;
  }

  /** A non-positive id is refused with BadRequest before the store is read or written. */
  lemma InvalidUserIdRefusedFirst(file: Option<seq<User>>, id: int, dto: UpdateUserDto, now: Timestamp)
    requires id <= 0
    ensures FindOneResult(Load(file), id) == Err(InvalidUserId)
    ensures UpdateStep(file, id, dto, now) == (Err(InvalidUserId), file)
    ensures RemoveStep(file, id) == (Err(InvalidUserId), file)
  {
  }

  /** An absent id is NotFound for update and remove, whatever the body: existence is checked before any field. */
  lemma MissingUserNotFound(file: Option<seq<User>>, id: int, dto: UpdateUserDto, now: Timestamp)
    requires id > 0
    requires forall u :: u in Load(file) ==> u.id != id
    ensures FindOneResult(Load(file), id) == Err(UserNotFound(id))
    ensures UpdateStep(file, id, dto, now) == (Err(UserNotFound(id)), file)
    ensures RemoveStep(file, id) == (Err(UserNotFound(id)), file)
  {
  }

  /**
   * A successful update replaces the first record with that id and nothing
   * else: a supplied username is stored trimmed, a supplied email
   * lower-cased, a supplied password verbatim; unsupplied fields, id and
   * createdAt stay; updatedAt becomes `now`; the result is the projection.
   */
  lemma UpdateChangesOnlySuppliedFields(file: Option<seq<User>>, id: int, dto: UpdateUserDto, now: Timestamp)
    requires UpdateStep(file, id, dto, now).0.Ok?
    ensures var before := Load(file);
            var k := FindIndex(Ids(before), id);
            var u := before[k];
            var after := UpdateStep(file, id, dto, now).1;
            && 0 <= k < |before| && after.Some? && |after.value| == |before|
            && after == Some(before[k := after.value[k]])
            && var v := after.value[k];
               && v.id == id == u.id && v.createdAt == u.createdAt && v.updatedAt == now
               && v.username == (if dto.username.Some? then Trim(dto.username.value) else u.username)
               && v.email == (if dto.email.Some? then ToLower(dto.email.value) else u.email)
               && v.password == dto.password.GetOr(u.password)
               && UpdateStep(file, id, dto, now).0.value == ToUserResponse(v)
  {
  }
}
