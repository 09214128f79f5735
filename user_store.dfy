/**
 * The user collection kept in one JSON file, read whole and rewritten whole
 * on every change; the same shape as the todo store, with two extra lookups.
 */
module UserStore {
  import opened Wrappers
  import opened FlatFile
  import opened UserTypes

  /** What `create` receives: a user without its id and timestamps. */
  datatype UserData = UserData(username: string, email: string, password: string)

  /** What `update` receives: the fields to overwrite; `None` leaves a field as it is. */
  datatype UserPatch = UserPatch(username: Option<string>, email: Option<string>, password: Option<string>)

  /** The ids of a list of users, position by position. */
  function Ids(users: seq<User>): (ids: seq<int>)
    ensures |ids| == |users|
    ensures forall i :: 0 <= i < |users| ==> ids[i] == users[i].id
  {
    seq(|users|, i requires 0 <= i < |users| => users[i].id)
  }

  /** The stored emails, position by position. */
  function Emails(users: seq<User>): (emails: seq<string>)
    ensures |emails| == |users|
    ensures forall i :: 0 <= i < |users| ==> emails[i] == users[i].email
  {
    seq(|users|, i requires 0 <= i < |users| => users[i].email)
  }

  /** The stored usernames, position by position. */
  function Usernames(users: seq<User>): (names: seq<string>)
    ensures |names| == |users|
    ensures forall i :: 0 <= i < |users| ==> names[i] == users[i].username
  {
    seq(|users|, i requires 0 <= i < |users| => users[i].username)
  }

  /**
   * `users.find(user => key(user) === value) || null`, given the keys of
   * the users position by position: the first user whose key is `value`.
   */
  function First<K(==)>(users: seq<User>, keys: seq<K>, value: K): (r: Option<User>)
    requires |keys| == |users|
    ensures r.None? <==> value !in keys
    ensures r.Some? ==> exists k :: 0 <= k < |users| && users[k] == r.value && keys[k] == value
                                    && forall j :: 0 <= j < k ==> keys[j] != value
  {
    var k := FindIndex(keys, value);
    if k == -1 then None else Some(users[k])
  }

  /** `findOne`-style lookup: the first user with that id. */
  function FindById(users: seq<User>, id: int): (r: Option<User>)
    ensures r.None? <==> forall u :: u in users ==> u.id != id
    ensures r.Some? ==> exists k :: 0 <= k < |users| && users[k] == r.value && r.value.id == id
                                    && forall j :: 0 <= j < k ==> users[j].id != id
  {
    assert forall u :: u in users ==> u.id in Ids(users);
    First(users, Ids(users), id)
  }

  /** `findByEmail`: the first user whose stored email equals the argument exactly. */
  function FirstWithEmail(users: seq<User>, email: string): (r: Option<User>)
    ensures r.None? <==> forall u :: u in users ==> u.email != email
    ensures r.Some? ==> exists k :: 0 <= k < |users| && users[k] == r.value && r.value.email == email
                                    && forall j :: 0 <= j < k ==> users[j].email != email
  {
    assert forall u :: u in users ==> u.email in Emails(users);
    First(users, Emails(users), email)
  }

  /** `findByUsername`: the first user whose stored username equals the argument exactly. */
  function FirstWithUsername(users: seq<User>, username: string): (r: Option<User>)
    ensures r.None? <==> forall u :: u in users ==> u.username != username
    ensures r.Some? ==> exists k :: 0 <= k < |users| && users[k] == r.value && r.value.username == username
                                    && forall j :: 0 <= j < k ==> users[j].username != username
  {
    assert forall u :: u in users ==> u.username in Usernames(users);
    First(users, Usernames(users), username)
  }

  /** The record `create` appends: a fresh id, the given fields, both timestamps `now`. */
  function NewUser(users: seq<User>, data: UserData, now: Timestamp): (u: User)
    ensures forall x :: x in users ==> x.id < u.id
    ensures |users| == 0 ==> u.id == 1
    ensures u.username == data.username && u.email == data.email && u.password == data.password
    ensures u.createdAt == now && u.updatedAt == now
  {
    User(NextId(Ids(users)), data.username, data.email, data.password, now, now)
  }

  /** `{...user, ...patch, updatedAt: now}`: id and createdAt never change. */
  function MergeUser(u: User, p: UserPatch, now: Timestamp): (r: User)
    ensures r.id == u.id && r.createdAt == u.createdAt && r.updatedAt == now
    ensures r.username == p.username.GetOr(u.username)
    ensures r.email == p.email.GetOr(u.email)
    ensures r.password == p.password.GetOr(u.password)
  {
    u.(username := p.username.GetOr(u.username),
       email := p.email.GetOr(u.email),
       password := p.password.GetOr(u.password),
       updatedAt := now)
  }

  /** The service of user-database.service.ts; `file` stands for data/users.json. */
  class UserDatabase {
    /** The parsed contents of the file, or `None` while it is missing or unreadable. */
    var file: Option<seq<User>>

    constructor (file: Option<seq<User>>)
      ensures this.file == file
    {
      this.file := file;
    }

    /** The list every read yields. */
    function Contents(): seq<User>
      reads this
    {
      Load(file)
    }

    /** `readUsers`: the parsed file, or [] when reading or parsing fails. */
    method ReadUsers() returns (users: seq<User>)
      ensures file.None? ==> users == []
      ensures file.Some? ==> users == file.value
    {
      match file
      case None => users := [];
      case Some(records) => users := records;
    }

    /** `writeUsers`: replaces the whole file. */
    method WriteUsers(users: seq<User>)
      modifies this
      ensures file == Some(users)
    {
      file := Some(users);
    }

    /** `findAll`: every stored user, in file order. */
    method FindAll() returns (users: seq<User>)
      ensures file.None? ==> users == []
      ensures file.Some? ==> users == file.value
    {
      users := ReadUsers();
    }

    /** `findOne`: the first user with that id, or null. */
    method FindOne(id: int) returns (r: Option<User>)
      ensures r == FindById(Contents(), id)
    {
      var users := ReadUsers();
      r := FindById(users, id);
    }

    /** `findByEmail`: the first user with exactly that email, or null. */
    method FindByEmail(email: string) returns (r: Option<User>)
      ensures r == FirstWithEmail(Contents(), email)
    {
      var users := ReadUsers();
      r := FirstWithEmail(users, email);
    }

    /** `findByUsername`: the first user with exactly that username, or null. */
    method FindByUsername(username: string) returns (r: Option<User>)
      ensures r == FirstWithUsername(Contents(), username)
    {
      var users := ReadUsers();
      r := FirstWithUsername(users, username);
    }

    /** `create`: appends a record with id `max + 1` (1 on an empty list) and rewrites the file. */
    method Create(data: UserData, now: Timestamp) returns (u: User)
      modifies this
      ensures u == NewUser(old(Contents()), data, now)
      ensures file == Some(old(Contents()) + [u])
    {
      var users := ReadUsers();
      var newId := if |users| > 0 then MaxId(Ids(users)) + 1 else 1;
      u := User(newId, data.username, data.email, data.password, now, now);
      users := users + [u];
      WriteUsers(users);
    }

    /**
     * `update`: merges the patch into the first record with that id and
     * rewrites the file; an absent id returns null and writes nothing.
     */
    method Update(id: int, patch: UserPatch, now: Timestamp) returns (r: Option<User>)
      modifies this
      ensures var before := old(Contents()); var k := FindIndex(Ids(before), id);
              if k == -1 then r.None? && file == old(file)
              else r == Some(MergeUser(before[k], patch, now)) && file == Some(before[k := r.value])
    {
      var users := ReadUsers();
      var k := FindIndex(Ids(users), id);
      if k == -1 {
        return None;
      }
      users := users[k := MergeUser(users[k], patch, now)];
      WriteUsers(users);
      r := Some(users[k]);
    }

    /**
     * `remove`: splices out the first record with that id and rewrites the
     * file; an absent id returns false and writes nothing.
     */
    method Remove(id: int) returns (removed: bool)
      modifies this
      ensures var before := old(Contents()); var k := FindIndex(Ids(before), id);
              if k == -1 then !removed && file == old(file)
              else removed && file == Some(RemoveAt(before, k))
    {
      var users := ReadUsers();
      var k := FindIndex(Ids(users), id);
      if k == -1 {
        return false;
      }
      users := RemoveAt(users, k);
      WriteUsers(users);
      removed := true;
    }
  }
}
