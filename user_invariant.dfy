/**
 * The invariant user.service.ts keeps on the stored users when every
 * change goes through it: distinct positive ids, a trimmed non-empty
 * username, an email that matches the pattern and is its own lower case,
 * and a password of at least 6 characters. Neither emails nor usernames
 * are kept distinct: the conflict checks compare the raw input.
 */
module UserInvariant {
  import opened Wrappers
  import opened Text
  import opened FlatFile
  import opened UserTypes
  import opened UserStore
  import opened Users

  /** The shape of every record the service writes. */
  predicate WellFormed(u: User) {
    && u.id > 0
    && u.username != [] && Trimmed(u.username)
    && IsEmail(u.email) && ToLower(u.email) == u.email
    && |u.password| >= MinPasswordLength
  }

  predicate AllWellFormed(users: seq<User>) {
    forall i :: 0 <= i < |users| ==> WellFormed(users[i])
  }

  /** No two records share an id. */
  predicate UniqueIds(users: seq<User>) {
    forall i, j :: 0 <= i < j < |users| ==> users[i].id != users[j].id
  }

  predicate Consistent(users: seq<User>) {
    UniqueIds(users) && AllWellFormed(users)
  }

  /** Appending a well-formed record whose id is above every other keeps the list consistent. */
  lemma AppendFreshKeepsConsistent(before: seq<User>, u: User)
    requires Consistent(before) && WellFormed(u)
    requires forall x :: x in before ==> x.id < u.id
    ensures Consistent(before + [u])
  {
    var after := before + [u];
    forall i | 0 <= i < |after| ensures WellFormed(after[i]) {
      if i < |before| {
        assert after[i] == before[i];
      }
    }
    forall i, j | 0 <= i < j < |after| ensures after[i].id != after[j].id {
      assert after[i] == before[i];
      if j == |before| {
        assert before[i] in before;
      } else {
        assert after[j] == before[j];
      }
    }
  }

  /** What `create` appends is well formed: the stored fields are the normalised, checked ones. */
  lemma CreatedWellFormed(before: seq<User>, dto: CreateUserDto, now: Timestamp)
    requires AllWellFormed(before)
    requires ValidateCreate(before, dto).Ok?
    ensures WellFormed(NewUser(before, ValidateCreate(before, dto).value, now))
  {
    var data := ValidateCreate(before, dto).value;
    var u := NewUser(before, data, now);
    CreateStoresNormalised(before, dto);
    TrimEmptyIffBlank(dto.username.value);
    if |before| > 0 {
      assert before[0] in before;
    }
  }

  /** `create` keeps the collection consistent. */
  lemma CreatePreservesConsistency(file: Option<seq<User>>, dto: CreateUserDto, now: Timestamp)
    requires Consistent(Load(file))
    ensures Consistent(Load(CreateStep(file, dto, now).1))
  {
    var before := Load(file);
    if ValidateCreate(before, dto).Ok? {
      var u := NewUser(before, ValidateCreate(before, dto).value, now);
      CreatedWellFormed(before, dto, now);
      CreateStepOk(file, dto, now);
      AppendFreshKeepsConsistent(before, u);
    }
  }

  /** Replacing a record by a well-formed one with the same id keeps the list consistent. */
  lemma ReplaceKeepsConsistent(before: seq<User>, k: nat, u: User)
    requires Consistent(before) && k < |before| && u.id == before[k].id && WellFormed(u)
    ensures Consistent(before[k := u])
  {
    var after := before[k := u];
    assert forall i :: 0 <= i < |after| ==> after[i].id == before[i].id;
    forall i | 0 <= i < |after| ensures WellFormed(after[i]) {
      if i != k {
        assert after[i] == before[i];
      }
    }
  }

  /** The sections of a successful `update` produce fields of the stored shape. */
  lemma PatchedFieldsWellFormed(users: seq<User>, id: int, dto: UpdateUserDto, u: User, now: Timestamp)
    requires WellFormed(u) && UpdatePatch(users, id, dto).Ok?
    ensures WellFormed(MergeUser(u, UpdatePatch(users, id, dto).value, now))
  {
    var m := MergeUser(u, UpdatePatch(users, id, dto).value, now);
    if dto.username.Some? {
      TrimEmptyIffBlank(dto.username.value);
      assert m.username == Trim(dto.username.value);
    }
    if dto.email.Some? {
      StoredEmail(dto.email.value);
      assert m.email == ToLower(dto.email.value);
    }
  }

  /** `update` keeps the collection consistent. */
  lemma UpdatePreservesConsistency(file: Option<seq<User>>, id: int, dto: UpdateUserDto, now: Timestamp)
    requires Consistent(Load(file))
    ensures Consistent(Load(UpdateStep(file, id, dto, now).1))
  {
    var before := Load(file);
    var k := FindIndex(Ids(before), id);
    if id > 0 && FindOneResult(before, id).Ok? && UpdatePatch(before, id, dto).Ok? && k != -1 {
      var v := MergeUser(before[k], UpdatePatch(before, id, dto).value, now);
      assert Load(UpdateStep(file, id, dto, now).1) == before[k := v];
      PatchedFieldsWellFormed(before, id, dto, before[k], now);
      ReplaceKeepsConsistent(before, k, v);
    }
  }

  /** Removing one record keeps the rest consistent, and with distinct ids its id is gone. */
  lemma RemoveAtKeepsConsistent(before: seq<User>, k: nat)
    requires Consistent(before) && k < |before|
    ensures Consistent(RemoveAt(before, k))
    ensures forall u :: u in RemoveAt(before, k) ==> u.id != before[k].id
  {
    var after := RemoveAt(before, k);
    assert forall i :: 0 <= i < |after| ==> after[i] == before[if i < k then i else i + 1];
    forall u | u in after ensures u.id != before[k].id {
      var i :| 0 <= i < |after| && after[i] == u;
    }
  }

  /** `remove` keeps the collection consistent, and the removed id is gone. */
  lemma RemovePreservesConsistency(file: Option<seq<User>>, id: int)
    requires Consistent(Load(file))
    ensures Consistent(Load(RemoveStep(file, id).1))
    ensures RemoveStep(file, id).0.Ok? ==> forall u :: u in Load(RemoveStep(file, id).1) ==> u.id != id
  {
    var before := Load(file);
    var k := FindIndex(Ids(before), id);
    if id > 0 && k != -1 {
      assert Load(RemoveStep(file, id).1) == RemoveAt(before, k);
      assert Ids(before)[k] == id;
      RemoveAtKeepsConsistent(before, k);
    }
  }
}
