/**
 * The user records of database.go: inserting, modifying and removing users
 * in bucket `users`, keyed by name.
 *
 * Only the existence rules are modelled.  The password is hashed before the
 * transaction starts; the hash is a parameter of the operations (None when
 * hashing fails), so bcrypt itself is not part of this model.
 */
module Users {
  import opened Wrappers
  import opened Keys
  import opened Types
  import opened Bolt
  import opened Database

  /** The record a writer stores: the user with the hashed password. */
  function Hashed(u: User, hash: string): (r: User)
    ensures r.name == u.name && r.admin == u.admin && r.pass == hash
  {
    u.(pass := hash)
  }

  /** Whether bucket `users` holds a value under the name (Get returns non-nil). */
  predicate Stored(bs: Buckets, name: Key)
    requires WellFormed(bs)
  {
    Reach(bs, [UsersBucket]) && [UsersBucket] in bs && HoldsValue(bs[[UsersBucket]], name)
  }

  // ---------------------------------------------------------------------------
  // insertUser

  /**
   * insertUser(u): a failed hash ends before the transaction; Get on a nil
   * bucket panics; a stored name is errUser; then the Put.
   */
  function InsertOutcome(bs: Buckets, u: User, hash: Option<string>): (r: Result<Buckets, Error>)
    requires WellFormed(bs)
    ensures r.Success? ==> WellFormed(r.value)
  {
    if hash.None? then Failure(ErrHash)
    else if !Reach(bs, [UsersBucket]) then Failure(Panic)
    else if Stored(bs, u.name) then Failure(ErrUser)
    else KeyPut(bs, UsersBucket, u.name, UserRecord(Hashed(u, hash.value)))
  }

  method InsertUser(db: DB, u: User, hash: Option<string>) returns (err: Option<Error>)
    requires db.Valid()
    modifies db
    ensures db.Valid()
    ensures InsertOutcome(old(db.buckets), u, hash).Failure? ==>
              err == Some(InsertOutcome(old(db.buckets), u, hash).error) && db.buckets == old(db.buckets)
    ensures InsertOutcome(old(db.buckets), u, hash).Success? ==>
              err == None && db.buckets == InsertOutcome(old(db.buckets), u, hash).value
  {
    if hash.None? {
      return Some(ErrHash);
    }
    var bucket := db.RootBucket(UsersBucket);
    var v := db.Get(bucket, u.name);
    if v.Failure? {
      return Some(v.error);
    }
    if v.value.Some? {
      return Some(ErrUser);
    }
    err := db.Put(bucket, u.name, UserRecord(Hashed(u, hash.value)));
  }

  // ---------------------------------------------------------------------------
  // modifyUser

  /** modifyUser(u): as insertUser, but a name that is not stored is errNoUser. */
  function ModifyOutcome(bs: Buckets, u: User, hash: Option<string>): (r: Result<Buckets, Error>)
    requires WellFormed(bs)
    ensures r.Success? ==> WellFormed(r.value)
  {
    if hash.None? then Failure(ErrHash)
    else if !Reach(bs, [UsersBucket]) then Failure(Panic)
    else if !Stored(bs, u.name) then Failure(ErrNoUser)
    else KeyPut(bs, UsersBucket, u.name, UserRecord(Hashed(u, hash.value)))
  }

  method ModifyUser(db: DB, u: User, hash: Option<string>) returns (err: Option<Error>)
    requires db.Valid()
    modifies db
    ensures db.Valid()
    ensures ModifyOutcome(old(db.buckets), u, hash).Failure? ==>
              err == Some(ModifyOutcome(old(db.buckets), u, hash).error) && db.buckets == old(db.buckets)
    ensures ModifyOutcome(old(db.buckets), u, hash).Success? ==>
              err == None && db.buckets == ModifyOutcome(old(db.buckets), u, hash).value
  {
    if hash.None? {
      return Some(ErrHash);
    }
    var bucket := db.RootBucket(UsersBucket);
    var v := db.Get(bucket, u.name);
    if v.Failure? {
      return Some(v.error);
    }
    if v.value.None? {
      return Some(ErrNoUser);
    }
    err := db.Put(bucket, u.name, UserRecord(Hashed(u, hash.value)));
  }

  // ---------------------------------------------------------------------------
  // removeUser

  /** removeUser(name): a name that is not stored is errNoUser; otherwise Delete. */
  function RemoveUserOutcome(bs: Buckets, name: Key): (r: Result<Buckets, Error>)
    requires WellFormed(bs)
    ensures r.Success? ==> WellFormed(r.value)
  {
    if !Reach(bs, [UsersBucket]) then Failure(Panic)
    else if !Stored(bs, name) then Failure(ErrNoUser)
    else KeyDeleted(bs, UsersBucket, name)
  }

  method RemoveUser(db: DB, name: Key) returns (err: Option<Error>)
    requires db.Valid()
    modifies db
    ensures db.Valid()
    ensures RemoveUserOutcome(old(db.buckets), name).Failure? ==>
              err == Some(RemoveUserOutcome(old(db.buckets), name).error) && db.buckets == old(db.buckets)
    ensures RemoveUserOutcome(old(db.buckets), name).Success? ==>
              err == None && db.buckets == RemoveUserOutcome(old(db.buckets), name).value
  {
    var bucket := db.RootBucket(UsersBucket);
    var v := db.Get(bucket, name);
    if v.Failure? {
      return Some(v.error);
    }
    if v.value.None? {
      return Some(ErrNoUser);
    }
    err := db.Delete(bucket, name);
  }

  // ---------------------------------------------------------------------------
  // Existence rules

  /**
   * With a hash and the bucket present: insert fails with errUser exactly
   * when the name is stored, modify fails with errNoUser exactly when it is
   * not, and remove fails with errNoUser exactly when it is not.
   */
  lemma ExistenceRules(bs: Buckets, u: User, h: string)
    requires WellFormed(bs) && Reach(bs, [UsersBucket])
    ensures InsertOutcome(bs, u, Some(h)) == Failure(ErrUser) <==> Stored(bs, u.name)
    ensures ModifyOutcome(bs, u, Some(h)) == Failure(ErrNoUser) <==> !Stored(bs, u.name)
    ensures RemoveUserOutcome(bs, u.name) == Failure(ErrNoUser) <==> !Stored(bs, u.name)
    ensures RemoveUserOutcome(bs, u.name).Success? <==> Stored(bs, u.name)
  {
    ReachIn(bs, [UsersBucket]);
  }

  /**
   * An inserted user reads back with the hashed password, no other user
   * changes, a second insert under the name is errUser and a modification
   * of it succeeds.
   */
  lemma InsertReadBack(bs: Buckets, u: User, h: string, u': User, h': string)
    requires WellFormed(bs) && InsertOutcome(bs, u, Some(h)).Success? && u'.name == u.name
    ensures KeyAt(InsertOutcome(bs, u, Some(h)).value, [UsersBucket, u.name]) == Success(Some(UserRecord(Hashed(u, h))))
    ensures forall k | k != u.name :: KeyAt(InsertOutcome(bs, u, Some(h)).value, [UsersBucket, k]) == KeyAt(bs, [UsersBucket, k])
    ensures InsertOutcome(InsertOutcome(bs, u, Some(h)).value, u', Some(h')) == Failure(ErrUser)
    ensures ModifyOutcome(InsertOutcome(bs, u, Some(h)).value, u', Some(h')).Success?
  {
    var r := InsertOutcome(bs, u, Some(h)).value;
    KeyPutReadBack(bs, UsersBucket, u.name, UserRecord(Hashed(u, h)));
    ReachSameLinks(bs, r, [UsersBucket]);
  }

  /** A removed user is gone: it no longer reads, and insert may reuse the name. */
  lemma RemoveUserGone(bs: Buckets, name: Key, u: User, h: string)
    requires WellFormed(bs) && RemoveUserOutcome(bs, name).Success? && u.name == name
    ensures KeyAt(RemoveUserOutcome(bs, name).value, [UsersBucket, name]) == Success(None)
    ensures forall k | k != name :: KeyAt(RemoveUserOutcome(bs, name).value, [UsersBucket, k]) == KeyAt(bs, [UsersBucket, k])
    ensures ModifyOutcome(RemoveUserOutcome(bs, name).value, u, Some(h)) == Failure(ErrNoUser)
    ensures InsertOutcome(RemoveUserOutcome(bs, name).value, u, Some(h)) != Failure(ErrUser)
    ensures RemoveUserOutcome(RemoveUserOutcome(bs, name).value, name) == Failure(ErrNoUser)
  {
    var r := RemoveUserOutcome(bs, name).value;
    KeyDeletedGone(bs, UsersBucket, name);
    ReachSameLinks(bs, r, [UsersBucket]);
  }
}
