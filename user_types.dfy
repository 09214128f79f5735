/** The user record, its public projection and the request bodies of the user routes. */
module UserTypes {
  import opened Wrappers
  import opened FlatFile

  /** A stored user; the password is kept verbatim. */
  datatype User = User(
    id: int,
    username: string,
    email: string,
    password: string,
    createdAt: Timestamp,
    updatedAt: Timestamp)

  /** What the user routes return: a user without its password. */
  datatype UserResponse = UserResponse(
    id: int,
    username: string,
    email: string,
    createdAt: Timestamp,
    updatedAt: Timestamp)

  /** The body of a registration; a field the client left out is `None`. */
  datatype CreateUserDto = CreateUserDto(username: Option<string>, email: Option<string>, password: Option<string>)

  /** The body of a profile update; only the fields present are to change. */
  datatype UpdateUserDto = UpdateUserDto(username: Option<string>, email: Option<string>, password: Option<string>)

  /** Login credentials. */
  datatype LoginDto = LoginDto(email: Option<string>, password: Option<string>)
}
