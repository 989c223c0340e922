/**
  User records and the "users" collection (package `data`, users.go).

  `User` has the fields of the Go struct and, besides them, the two
  the registration handler uses: `activated` and the digest `Password.Set`
  computes. The collection keeps its documents in insertion order. Mongo
  keeps `_id` unique; the unique index on `email` is assumed here, since
  the repository's code creates no index on the collection.
*/
module Users {

  import opened Wrappers
  import opened Primitives
  import opened Validator

  /**
    data.ValidateEmail and data.ValidatePasswordPlaintext are not part of
    this model: each is the unknown function from the validator's errors
    before the call to its errors after it.
  */
  const ValidateEmail: (map<string, string>, Bytes) -> map<string, string>
  const ValidatePasswordPlaintext: (map<string, string>, Bytes) -> map<string, string>

  /**
    The password codec's verification (`user.PasswordMatches`), not part of
    this model: for a stored digest and a guess, a verdict or an error.
  */
  const PasswordMatches: (Bytes, Bytes) -> Result<bool, Error>

  /** A document of the "users" collection. */
  datatype UserDoc = UserDoc(
    id: ObjectId, createdAt: Time, name: Bytes, email: Bytes, password: Bytes,
    version: int, activated: bool, passwordHash: Bytes)

  /** data.User, updated in place by the handler and by UserModel.Insert. */
  class User {
    var id: ObjectId
    var createdAt: Time
    var name: Bytes
    var email: Bytes
    var password: Bytes
    var version: int
    var activated: bool
    var passwordHash: Bytes

    /** `&data.User{Name: name, Email: email, Activated: activated}`: every other field is zero. */
    constructor (name: Bytes, email: Bytes, activated: bool)
      ensures this.name == name && this.email == email && this.activated == activated
      ensures id == NilObjectId && createdAt == 0 && password == [] && version == 0 && passwordHash == []
    {
      this.id := NilObjectId;
      this.createdAt := 0;
      this.name := name;
      this.email := email;
      this.password := [];
      this.version := 0;
      this.activated := activated;
      this.passwordHash := [];
    }

    /**
      Password.Set: keep the plaintext, which ValidateUser reads, and the
      codec's digest of it. `digest` is the codec's answer for `plaintext`:
      the digest or the error it reported. On an error nothing changes.
    */
    method SetPassword(plaintext: Bytes, digest: Result<Bytes, Error>) returns (err: Option<Error>)
      modifies this
      ensures digest.Failure? ==> err == Some(digest.error) && Snapshot() == old(Snapshot())
      ensures digest.Success? ==> err == None
      ensures digest.Success? ==> Snapshot() == old(Snapshot()).(password := plaintext, passwordHash := digest.value)
    {
      if digest.Failure? {
        return Some(digest.error);
      }
      password, passwordHash := plaintext, digest.value;
      return None;
    }

    /** The document the user is written as. */
    function Snapshot(): UserDoc
      reads this
    {
      UserDoc(id, createdAt, name, email, password, version, activated, passwordHash)
    }
  }

  /** The checks of ValidateUser on the name, the email and the password. */
  function NameRules(name: Bytes): seq<Rule>
  {
    [ Rule(name != [], "name", "must be provided"),
      Rule(|name| <= 100, "name", "must not be more than 100 bytes long") ]
  }

  function EmailRules(email: Bytes): seq<Rule>
  {
    [ Rule(email != [], "email", "must be provided"),
      Rule(|email| <= 100, "email", "must not be more than 100 bytes long") ]
  }

  function PasswordRules(name: Bytes, password: Bytes): seq<Rule>
  {
    [ Rule(password != [], "password", "must be provided"),
      Rule(|password| >= 8, "password", "must be at least 8 bytes long"),
      Rule(|password| <= 72, "password", "must not be more than 72 bytes long"),
      Rule(password != name, "password", "must not be the same as name") ]
  }

  /** The eight checks of ValidateUser, in order. */
  function UserRules(name: Bytes, email: Bytes, password: Bytes): seq<Rule>
  {
    NameRules(name) + EmailRules(email) + PasswordRules(name, password)
  }

  /** ValidateUser: all eight checks run, whatever the earlier ones found. */
  method ValidateUser(v: Validator, user: User)
    modifies v
    ensures v.errors == Apply(old(v.errors), UserRules(user.name, user.email, user.password))
  {
    ghost var start := v.errors;
    v.Check(user.name != [], "name", "must be provided");
    v.Check(|user.name| <= 100, "name", "must not be more than 100 bytes long");
    v.Check(user.email != [], "email", "must be provided");
    v.Check(|user.email| <= 100, "email", "must not be more than 100 bytes long");
    v.Check(user.password != [], "password", "must be provided");
    v.Check(|user.password| >= 8, "password", "must be at least 8 bytes long");
    v.Check(|user.password| <= 72, "password", "must not be more than 72 bytes long");
    v.Check(user.password != user.name, "password", "must not be the same as name");
    ApplyUserRules(start, user.name, user.email, user.password);
  }

  /** The eight checks of UserRules, one after the other. */
  lemma ApplyUserRules(errors: map<string, string>, name: Bytes, email: Bytes, password: Bytes)
    ensures Apply(errors, UserRules(name, email, password)) ==
      var rs := UserRules(name, email, password);
      Step(Step(Step(Step(Step(Step(Step(Step(errors, rs[0]), rs[1]), rs[2]), rs[3]), rs[4]), rs[5]), rs[6]), rs[7])
  {
    var rs := UserRules(name, email, password);
    var e1 := Step(errors, rs[0]);
    var e2 := Step(e1, rs[1]);
    var e3 := Step(e2, rs[2]);
    var e4 := Step(e3, rs[3]);
    var e5 := Step(e4, rs[4]);
    var e6 := Step(e5, rs[5]);
    var e7 := Step(e6, rs[6]);
    assert rs[0..] == rs;
    ApplyFrom(errors, rs, 0);
    ApplyFrom(e1, rs, 1);
    ApplyFrom(e2, rs, 2);
    ApplyFrom(e3, rs, 3);
    ApplyFrom(e4, rs, 4);
    ApplyFrom(e5, rs, 5);
    ApplyFrom(e6, rs, 6);
    ApplyFrom(e7, rs, 7);
    assert rs[8..] == [];
  }

  /** What a field's checks report: nothing, or the message of the first that fails. */
  function NameProblem(name: Bytes): Option<string>
  {
    if name == [] then Some("must be provided")
    else if |name| > 100 then Some("must not be more than 100 bytes long")
    else None
  }

  function EmailProblem(email: Bytes): Option<string>
  {
    if email == [] then Some("must be provided")
    else if |email| > 100 then Some("must not be more than 100 bytes long")
    else None
  }

  function PasswordProblem(name: Bytes, password: Bytes): Option<string>
  {
    if password == [] then Some("must be provided")
    else if |password| < 8 then Some("must be at least 8 bytes long")
    else if |password| > 72 then Some("must not be more than 72 bytes long")
    else if password == name then Some("must not be the same as name")
    else None
  }

  function FieldError(key: string, problem: Option<string>): map<string, string>
  {
    if problem.Some? then map[key := problem.value] else map[]
  }

  /**
    On a fresh validator ValidateUser records, for each of "name", "email"
    and "password" independently, the first failing check of that field,
    and nothing else.
  */
  lemma ValidateUserErrors(name: Bytes, email: Bytes, password: Bytes)
    ensures Apply(map[], UserRules(name, email, password)) ==
      FieldError("name", NameProblem(name))
      + FieldError("email", EmailProblem(email))
      + FieldError("password", PasswordProblem(name, password))
  {
    var rules := UserRules(name, email, password);
    var expected := FieldError("name", NameProblem(name))
      + FieldError("email", EmailProblem(email))
      + FieldError("password", PasswordProblem(name, password));
    forall k
      ensures k in Apply(map[], rules) <==> k in expected
      ensures k in expected ==> Apply(map[], rules)[k] == expected[k]
    {
      ApplyCollectsFailures(map[], rules, k);
      FirstFailureOfUserRules(name, email, password, k);
    }
  }

  lemma FirstFailureOfUserRules(name: Bytes, email: Bytes, password: Bytes, key: string)
    ensures FirstFailure(UserRules(name, email, password), key) ==
      if key == "name" then NameProblem(name)
      else if key == "email" then EmailProblem(email)
      else if key == "password" then PasswordProblem(name, password)
      else None
  {
    var n, e, p := NameRules(name), EmailRules(email), PasswordRules(name, password);
    FirstFailureConcat(n + e, p, key);
    FirstFailureConcat(n, e, key);
    FirstFailureOfNameRules(name, key);
    FirstFailureOfEmailRules(email, key);
    FirstFailureOfPasswordRules(name, password, key);
  }

  lemma FirstFailureOfNameRules(name: Bytes, key: string)
    ensures FirstFailure(NameRules(name), key) == if key == "name" then NameProblem(name) else None
  {
    var n := NameRules(name);
    assert n[1..][1..] == [];
    assert FirstFailure(n[1..], key) == if !n[1].ok && key == "name" then Some(n[1].message) else None;
  }

  lemma FirstFailureOfEmailRules(email: Bytes, key: string)
    ensures FirstFailure(EmailRules(email), key) == if key == "email" then EmailProblem(email) else None
  {
    var e := EmailRules(email);
    assert e[1..][1..] == [];
    assert FirstFailure(e[1..], key) == if !e[1].ok && key == "email" then Some(e[1].message) else None;
  }

  lemma FirstFailureOfPasswordRules(name: Bytes, password: Bytes, key: string)
    ensures FirstFailure(PasswordRules(name, password), key) ==
      if key == "password" then PasswordProblem(name, password) else None
  {
    var p := PasswordRules(name, password);
    var p1, p2, p3 := p[1..], p[1..][1..], p[1..][1..][1..];
    assert p3[1..] == [];
    assert FirstFailure(p3, key) == if !p[3].ok && key == "password" then Some(p[3].message) else None;
    assert FirstFailure(p2, key) == if !p[2].ok && key == "password" then Some(p[2].message) else FirstFailure(p3, key);
    assert FirstFailure(p1, key) == if !p[1].ok && key == "password" then Some(p[1].message) else FirstFailure(p2, key);
  }

  /** ValidateUser adds no error exactly when every field rule holds. */
  lemma ValidateUserValidIff(name: Bytes, email: Bytes, password: Bytes)
    ensures Apply(map[], UserRules(name, email, password)) == map[] <==>
      && 0 < |name| <= 100
      && 0 < |email| <= 100
      && 8 <= |password| <= 72
      && password != name
  {
    ValidateUserErrors(name, email, password);
    var errs := Apply(map[], UserRules(name, email, password));
    if NameProblem(name).Some? { assert "name" in errs; }
    if EmailProblem(email).Some? { assert "email" in errs; }
    if PasswordProblem(name, password).Some? { assert "password" in errs; }
  }

  /** The id the driver reports for an inserted document. */
  datatype InsertedId = ObjectIdValue(oid: ObjectId) | OtherIdValue

  /**
    How the datastore answers one write, besides what its indexes decide:
    normally, with a failure (timeout, network, ...), or by reporting an
    inserted id that is not an ObjectID.
  */
  datatype StoreFault = NoFault | Fails(error: Error) | OtherIdType

  /** The name of the unique index on the email address. */
  const EmailIndex: string := "email"

  /** The name of the unique index on the document id. */
  const IdIndex: string := "_id"

  /** Some document already has this email address. */
  predicate EmailTaken(docs: seq<UserDoc>, email: Bytes)
  {
    exists i :: 0 <= i < |docs| && docs[i].email == email
  }

  /** The first document with this email address. */
  function FindByEmail(docs: seq<UserDoc>, email: Bytes): (r: Option<UserDoc>)
    ensures r.Some? ==> r.value in docs && r.value.email == email
    ensures r.None? <==> !EmailTaken(docs, email)
  {
    if docs == [] then None
    else if docs[0].email == email then Some(docs[0])
    else
      assert forall i :: 1 <= i < |docs| ==> docs[i] == docs[1..][i - 1];
      FindByEmail(docs[1..], email)
  }

  /** UserModel: the "users" collection. */
  class UserModel {
    var docs: seq<UserDoc>
    /** Larger than every id in use: the next id the driver generates. */
    var nextId: ObjectId

    /** Ids are set and unique, and so are email addresses (the `_id` index and the assumed `email` index). */
    ghost predicate Valid()
      reads this
    {
      && nextId > 0
      && (forall i :: 0 <= i < |docs| ==> 0 < docs[i].id < nextId)
      && (forall i, j :: 0 <= i < j < |docs| ==> docs[i].id != docs[j].id && docs[i].email != docs[j].email)
    }

    constructor ()
      ensures Valid() && docs == []
    {
      docs, nextId := [], 1;
    }

    /** The id a new document is stored under: its own, or a fresh one when it has none. */
    function AssignedId(doc: UserDoc): ObjectId
      reads this
    {
      if doc.id == NilObjectId then nextId else doc.id
    }

    /**
      InsertOne on the collection. A nil id is omitted (`omitempty`) and the
      driver generates a fresh one; a document whose email or id is already
      in use is refused by the unique index with a duplicate-key error.
    */
    method InsertOne(doc: UserDoc, fault: StoreFault) returns (r: Result<InsertedId, Error>)
      requires Valid()
      requires fault.Fails? ==> DriverError(fault.error)
      modifies this
      ensures Valid()
      ensures r.Failure? ==> docs == old(docs)
      ensures fault.Fails? ==> r == Failure(fault.error)
      ensures !fault.Fails? && EmailTaken(old(docs), doc.email) ==> r == Failure(DuplicateKey(EmailIndex))
      ensures !fault.Fails? && !EmailTaken(old(docs), doc.email) && IdTaken(old(docs), old(AssignedId(doc))) ==>
        r == Failure(DuplicateKey(IdIndex))
      ensures !fault.Fails? && !EmailTaken(old(docs), doc.email) && !IdTaken(old(docs), old(AssignedId(doc))) ==>
        && old(AssignedId(doc)) != NilObjectId
        && docs == old(docs) + [doc.(id := old(AssignedId(doc)))]
        && r == Success(if fault.NoFault? then ObjectIdValue(old(AssignedId(doc))) else OtherIdValue)
      ensures doc.id == NilObjectId ==> !IdTaken(old(docs), old(AssignedId(doc)))
    {
      if fault.Fails? {
        return Failure(fault.error);
      }
      if FindByEmail(docs, doc.email).Some? {
        return Failure(DuplicateKey(EmailIndex));
      }
      var id := AssignedId(doc);
      if IdTaken(docs, id) {
        return Failure(DuplicateKey(IdIndex));
      }
      docs := docs + [doc.(id := id)];
      if id >= nextId {
        nextId := id + 1;
      }
      if fault.OtherIdType? {
        return Success(OtherIdValue);
      }
      return Success(ObjectIdValue(id));
    }

    /**
      Insert, as written: stamp the creation time and version 1, write the
      user, and copy the generated id back. A datastore error is returned
      unchanged, a duplicate email included, and the id is then left as it
      was.
    */
    method Insert(user: User, now: Time, fault: StoreFault) returns (err: Option<Error>)
      requires Valid()
      requires fault.Fails? ==> DriverError(fault.error)
      modifies this, user
      ensures Valid()
      ensures user.createdAt == now && user.version == 1
      ensures user.name == old(user.name) && user.email == old(user.email) && user.password == old(user.password)
      ensures user.activated == old(user.activated) && user.passwordHash == old(user.passwordHash)
      ensures err.Some? ==> user.id == old(user.id)
      ensures err.Some? && !fault.OtherIdType? ==> docs == old(docs)
      ensures EmailTaken(old(docs), old(user.email)) ==> docs == old(docs)
      ensures fault.Fails? ==> err == Some(fault.error)
      ensures !fault.Fails? && EmailTaken(old(docs), old(user.email)) ==> err == Some(DuplicateKey(EmailIndex))
      ensures err.None? <==>
        fault.NoFault? && !EmailTaken(old(docs), old(user.email)) && !IdTaken(old(docs), old(AssignedId(user.Snapshot())))
      ensures err.None? ==>
        && user.id == old(AssignedId(user.Snapshot())) && user.id != NilObjectId
        && docs == old(docs) + [user.Snapshot()]
      ensures fault.OtherIdType? && !EmailTaken(old(docs), old(user.email)) && !IdTaken(old(docs), old(AssignedId(user.Snapshot()))) ==>
        err == Some(NotObjectId) && docs == old(docs) + [user.Snapshot().(id := old(AssignedId(user.Snapshot())))]
      ensures old(user.id) == NilObjectId ==> !IdTaken(old(docs), old(AssignedId(user.Snapshot())))
    {
      user.createdAt := now;
      user.version := 1;
      var result := InsertOne(user.Snapshot(), fault);
      if result.Failure? {
        return Some(result.error);
      }
      if result.value.OtherIdValue? {
        return Some(NotObjectId);
      }
      user.id := result.value.oid;
      return None;
    }

    /**
      Insert with the duplicate-email error the registration handler expects:
      the unique email index's refusal is reported as ErrDuplicateEmail.
    */
    method InsertDetectingDuplicateEmail(user: User, now: Time, fault: StoreFault) returns (err: Option<Error>)
      requires Valid()
      requires fault.Fails? ==> DriverError(fault.error)
      modifies this, user
      ensures Valid()
      ensures user.createdAt == now && user.version == 1
      ensures user.name == old(user.name) && user.email == old(user.email) && user.password == old(user.password)
      ensures user.activated == old(user.activated) && user.passwordHash == old(user.passwordHash)
      ensures err.Some? ==> user.id == old(user.id)
      ensures err.Some? && !fault.OtherIdType? ==> docs == old(docs)
      ensures EmailTaken(old(docs), old(user.email)) ==> docs == old(docs)
      ensures fault.Fails? ==> err == Some(if fault.error == DuplicateKey(EmailIndex) then DuplicateEmail else fault.error)
      ensures !fault.Fails? && EmailTaken(old(docs), old(user.email)) ==> err == Some(DuplicateEmail)
      ensures err.None? <==>
        fault.NoFault? && !EmailTaken(old(docs), old(user.email)) && !IdTaken(old(docs), old(AssignedId(user.Snapshot())))
      ensures err.None? ==>
        && user.id == old(AssignedId(user.Snapshot())) && user.id != NilObjectId
        && docs == old(docs) + [user.Snapshot()]
      ensures fault.OtherIdType? && !EmailTaken(old(docs), old(user.email)) && !IdTaken(old(docs), old(AssignedId(user.Snapshot()))) ==>
        err == Some(NotObjectId) && docs == old(docs) + [user.Snapshot().(id := old(AssignedId(user.Snapshot())))]
      ensures old(user.id) == NilObjectId ==> !IdTaken(old(docs), old(AssignedId(user.Snapshot())))
    {
      err := Insert(user, now, fault);
      if err == Some(DuplicateKey(EmailIndex)) {
        err := Some(DuplicateEmail);
      }
    }

    /** Lookup by email address: the stored document, ErrRecordNotFound, or the datastore's error. */
    method LookupByEmail(email: Bytes, fault: Option<Error>) returns (r: Result<UserDoc, Error>)
      requires Valid()
      requires fault.Some? ==> DriverError(fault.value)
      ensures fault.Some? ==> r == Failure(fault.value)
      ensures fault.None? ==> (r == Failure(RecordNotFound) <==> !EmailTaken(docs, email))
      ensures r == Failure(RecordNotFound) <==> fault.None? && !EmailTaken(docs, email)
      ensures fault.None? && EmailTaken(docs, email) ==> r.Success?
      ensures r.Success? ==> r.value in docs && r.value.email == email
    {
      if fault.Some? {
        return Failure(fault.value);
      }
      var found := FindByEmail(docs, email);
      if found.None? {
        return Failure(RecordNotFound);
      }
      return Success(found.value);
    }

    /** Get: not implemented; it answers no user and no error. */
    method Get(id: int) returns (user: Option<UserDoc>, err: Option<Error>)
      ensures user == None && err == None
    {
      return None, None;
    }

    /** GetByEmail: not implemented; it answers no user and no error. */
    method GetByEmail(email: Bytes) returns (user: Option<UserDoc>, err: Option<Error>)
      ensures user == None && err == None
    {
      return None, None;
    }

    /** Update: not implemented; it reports success and writes nothing. */
    method Update(user: User) returns (err: Option<Error>)
      ensures err == None
    {
      return None;
    }

    /** Delete: not implemented; it reports success and deletes nothing. */
    method Delete(id: int) returns (err: Option<Error>)
      ensures err == None
    {
      return None;
    }
  }

  predicate IdTaken(docs: seq<UserDoc>, id: ObjectId)
  {
    exists i :: 0 <= i < |docs| && docs[i].id == id
  }
}
