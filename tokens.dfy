/**
  Token issuance and the "tokens" collection (package `data`, tokens.go).

  A token is 16 random bytes written in unpadded base32; only its SHA-256
  digest is stored, together with its owner, scope and expiry. The store is
  the collection's documents in insertion order; `FindOne` returns the first
  document that matches its filter.
*/
module Tokens {

  import opened Wrappers
  import opened Primitives
  import Base32
  import opened Validator

  const ScopeActivation: string := "activation"
  const ScopeAuthentication: string := "authentication"

  /** The number of random bytes in a token. */
  const RandomBytes: nat := 16

  /** The length of a token's plaintext, in bytes. */
  const PlaintextLength: nat := 26

  type Digest = s: Bytes | |s| == 32 witness seq(32, _ => 0)

  /** SHA-256 (`sha256.Sum256`): a fixed function whose internals are not modelled. */
  const Sum256: Bytes -> Digest

  /** A token as `generateToken` returns it. */
  datatype Token = Token(plainToken: Bytes, hashedToken: Bytes, userId: ObjectId, expiry: Time, scope: string)

  /** A document of the "tokens" collection: the struct's bson fields, which leave out the plaintext. */
  datatype TokenDoc = TokenDoc(hashedToken: Bytes, userId: ObjectId, expiry: Time, scope: string)

  /** The JSON form sent to a client: its json fields are the plaintext and the expiry only. */
  datatype TokenJson = TokenJson(token: Bytes, expiry: Time)

  function Persisted(t: Token): TokenDoc
  {
    TokenDoc(t.hashedToken, t.userId, t.expiry, t.scope)
  }

  function ToJson(t: Token): TokenJson
  {
    TokenJson(t.plainToken, t.expiry)
  }

  /** What `generateToken(userId, ttl, scope)` at time `now` builds from the random bytes `random`. */
  ghost predicate IsGenerated(t: Token, userId: ObjectId, ttl: Time, scope: string, now: Time, random: Bytes)
  {
    && t.userId == userId
    && t.scope == scope
    && t.expiry == now + ttl
    && t.plainToken == Base32.EncodeNoPadding(random)
    && t.hashedToken == Sum256(t.plainToken)
  }

  /**
    generateToken. `random` is what `rand.Read` gave for a 16-byte buffer:
    the bytes, or the error it reported.
  */
  method GenerateToken(userId: ObjectId, ttl: Time, scope: string, now: Time, random: Result<Bytes, Error>)
    returns (r: Result<Token, Error>)
    requires random.Success? ==> |random.value| == RandomBytes
    ensures random.Failure? ==> r == Failure(random.error)
    ensures random.Success? ==> r.Success? && IsGenerated(r.value, userId, ttl, scope, now, random.value)
  {
    var token := Token([], [], userId, now + ttl, scope);
    if random.Failure? {
      return Failure(random.error);
    }
    token := token.(plainToken := Base32.EncodeNoPadding(random.value));
    token := token.(hashedToken := Sum256(token.plainToken));
    return Success(token);
  }

  /**
    A generated token's plaintext is 26 symbols of the base32 alphabet that
    decode back to the random bytes, it passes ValidateTokenPlaintext, and
    the stored digest is the digest of the plaintext.
  */
  lemma GeneratedTokenWellFormed(t: Token, userId: ObjectId, ttl: Time, scope: string, now: Time, random: Bytes)
    requires |random| == RandomBytes
    requires IsGenerated(t, userId, ttl, scope, now, random)
    ensures |t.plainToken| == PlaintextLength
    ensures forall i :: 0 <= i < |t.plainToken| ==> Base32.IsSymbol(t.plainToken[i])
    ensures Base32.DecodeNoPadding(t.plainToken) == Some(random)
    ensures Apply(map[], TokenPlaintextRules(t.plainToken)) == map[]
    ensures Persisted(t).hashedToken == Sum256(t.plainToken)
  {
    Base32.DecodeEncode(random);
    TokenPlaintextErrors(t.plainToken);
  }

  /** The two checks of ValidateTokenPlaintext. */
  function TokenPlaintextRules(plain: Bytes): seq<Rule>
  {
    [ Rule(plain != [], "token", "must be provided"),
      Rule(|plain| == PlaintextLength, "token", "must be 26 bytes long") ]
  }

  /** ValidateTokenPlaintext */
  method ValidateTokenPlaintext(v: Validator, plain: Bytes)
    modifies v
    ensures v.errors == Apply(old(v.errors), TokenPlaintextRules(plain))
  {
    v.Check(plain != [], "token", "must be provided");
    v.Check(|plain| == PlaintextLength, "token", "must be 26 bytes long");
    ghost var rules := TokenPlaintextRules(plain);
    assert rules[0..] == rules && rules[2..] == [];
    ApplyFrom(old(v.errors), rules, 0);
    ApplyFrom(Step(old(v.errors), rules[0]), rules, 1);
  }

  /** On a fresh validator: the empty string is reported as missing, any
      other length but 26 as the wrong length, and 26 bytes pass. */
  lemma TokenPlaintextErrors(plain: Bytes)
    ensures Apply(map[], TokenPlaintextRules(plain)) ==
      if plain == [] then map["token" := "must be provided"]
      else if |plain| != PlaintextLength then map["token" := "must be 26 bytes long"]
      else map[]
  {
    var rules := TokenPlaintextRules(plain);
    var afterFirst := if plain != [] then map[] else map["token" := "must be provided"];
    assert Apply(map[], rules) == Apply(afterFirst, rules[1..]);
    assert rules[1..][1..] == [];
    assert Apply(afterFirst, rules[1..]) ==
      if |plain| == PlaintextLength then afterFirst else WithError(afterFirst, "token", "must be 26 bytes long");
  }

  /** The filter of GetUserIDForToken: `{hashedToken: hash, scope: scope, expiry: {$gt: now}}`. */
  predicate Matches(d: TokenDoc, hash: Bytes, scope: string, now: Time)
  {
    d.hashedToken == hash && d.scope == scope && d.expiry > now
  }

  /** FindOne on the collection: the first matching document, if any. */
  function FindOne(docs: seq<TokenDoc>, hash: Bytes, scope: string, now: Time): (r: Option<TokenDoc>)
    ensures r.Some? ==> r.value in docs && Matches(r.value, hash, scope, now)
    ensures r.None? <==> forall i :: 0 <= i < |docs| ==> !Matches(docs[i], hash, scope, now)
  {
    if docs == [] then None
    else if Matches(docs[0], hash, scope, now) then Some(docs[0])
    else FindOne(docs[1..], hash, scope, now)
  }

  /** The filter of DeleteAllForUser: `{scope: scope, userID: userId}`. */
  predicate OwnedBy(d: TokenDoc, scope: string, userId: ObjectId)
  {
    d.scope == scope && d.userId == userId
  }

  /** DeleteMany on the collection: the documents the filter does not select, in their order. */
  function Without(docs: seq<TokenDoc>, scope: string, userId: ObjectId): (r: seq<TokenDoc>)
    ensures forall d :: multiset(r)[d] == if OwnedBy(d, scope, userId) then 0 else multiset(docs)[d]
  {
    if docs == [] then []
    else
      assert docs == [docs[0]] + docs[1..];
      if OwnedBy(docs[0], scope, userId) then Without(docs[1..], scope, userId)
      else [docs[0]] + Without(docs[1..], scope, userId)
  }

  /** Adding a document changes a lookup only when nothing before it matched. */
  lemma {:induction false} FindOneAppend(docs: seq<TokenDoc>, d: TokenDoc, hash: Bytes, scope: string, now: Time)
    ensures FindOne(docs + [d], hash, scope, now) ==
      if FindOne(docs, hash, scope, now).Some? then FindOne(docs, hash, scope, now)
      else if Matches(d, hash, scope, now) then Some(d)
      else None
  {
    if docs != [] {
      assert (docs + [d])[1..] == docs[1..] + [d];
      FindOneAppend(docs[1..], d, hash, scope, now);
    }
  }

  /**
    Round trip: once a generated token is stored, looking its plaintext up
    under its scope at any time before its expiry finds its owner, provided
    no document stored earlier matches the same digest and scope.
  */
  lemma IssuedTokenResolves(docs: seq<TokenDoc>, t: Token, userId: ObjectId, ttl: Time, scope: string,
                            issued: Time, random: Bytes, now: Time)
    requires IsGenerated(t, userId, ttl, scope, issued, random)
    requires now < issued + ttl
    requires FindOne(docs, Sum256(t.plainToken), scope, now).None?
    ensures FindOne(docs + [Persisted(t)], Sum256(t.plainToken), scope, now) == Some(Persisted(t))
    ensures Persisted(t).userId == userId
  {
    FindOneAppend(docs, Persisted(t), Sum256(t.plainToken), scope, now);
  }

  /**
    Scope exclusivity and strict expiry: when no other document carries a
    token's digest, looking its plaintext up under another scope, or at any
    time not before its expiry, finds nothing.
  */
  lemma StoredTokenScopeAndExpiry(docs: seq<TokenDoc>, t: Token, scope: string, now: Time)
    requires t.hashedToken == Sum256(t.plainToken)
    requires forall i :: 0 <= i < |docs| && docs[i].hashedToken == t.hashedToken ==> docs[i] == Persisted(t)
    ensures FindOne(docs, Sum256(t.plainToken), scope, now).Some? <==> Persisted(t) in docs && scope == t.scope && now < t.expiry
  {
    if Persisted(t) in docs && scope == t.scope && now < t.expiry {
      var i :| 0 <= i < |docs| && docs[i] == Persisted(t);
      assert Matches(docs[i], Sum256(t.plainToken), scope, now);
    }
  }

  /** Deleting again deletes nothing more. */
  lemma {:induction false} WithoutIdempotent(docs: seq<TokenDoc>, scope: string, userId: ObjectId)
    ensures Without(Without(docs, scope, userId), scope, userId) == Without(docs, scope, userId)
  {
    if docs != [] {
      WithoutIdempotent(docs[1..], scope, userId);
      if !OwnedBy(docs[0], scope, userId) {
        var rest := Without(docs[1..], scope, userId);
        assert ([docs[0]] + rest)[1..] == rest;
      }
    }
  }

  /** After deleting a user's tokens of a scope, none of them resolves under that scope. */
  lemma DeletedTokensDoNotResolve(docs: seq<TokenDoc>, scope: string, userId: ObjectId, hash: Bytes, now: Time)
    ensures FindOne(Without(docs, scope, userId), hash, scope, now) == None
         || FindOne(Without(docs, scope, userId), hash, scope, now).value.userId != userId
  {
    var r := FindOne(Without(docs, scope, userId), hash, scope, now);
    if r.Some? {
      assert multiset(Without(docs, scope, userId))[r.value] > 0;
    }
  }

  /** Deleting one scope's tokens leaves every lookup under another scope as it was. */
  lemma {:induction false} WithoutKeepsOtherScopes(docs: seq<TokenDoc>, scope: string, userId: ObjectId,
                                                   hash: Bytes, otherScope: string, now: Time)
    requires otherScope != scope
    ensures FindOne(Without(docs, scope, userId), hash, otherScope, now) == FindOne(docs, hash, otherScope, now)
  {
    if docs != [] {
      WithoutKeepsOtherScopes(docs[1..], scope, userId, hash, otherScope, now);
      if !OwnedBy(docs[0], scope, userId) {
        var rest := Without(docs[1..], scope, userId);
        assert ([docs[0]] + rest)[1..] == rest;
      }
    }
  }

  /** TokenModel: the "tokens" collection. */
  class TokenModel {
    var docs: seq<TokenDoc>

    constructor (docs: seq<TokenDoc>)
      ensures this.docs == docs
    {
      this.docs := docs;
    }

    /**
      Insert: InsertOne of the token's document. `fault` is the datastore
      failure of this call, if any; a failed call is taken to write nothing.
    */
    method Insert(token: Token, fault: Option<Error>) returns (err: Option<Error>)
      requires fault.Some? ==> DriverError(fault.value)
      modifies this
      ensures err == fault
      ensures docs == if fault.None? then old(docs) + [Persisted(token)] else old(docs)
    {
      if fault.Some? {
        return fault;
      }
      docs := docs + [Persisted(token)];
      return None;
    }

    /**
      New: generate a token and insert it. Only a failure of the randomness
      source is reported; an error from Insert is dropped and the token is
      returned all the same.
    */
    method New(userId: ObjectId, ttl: Time, scope: string, now: Time, random: Result<Bytes, Error>,
               insertFault: Option<Error>)
      returns (r: Result<Token, Error>)
      requires random.Success? ==> |random.value| == RandomBytes
      requires insertFault.Some? ==> DriverError(insertFault.value)
      modifies this
      ensures random.Failure? ==> r == Failure(random.error) && docs == old(docs)
      ensures random.Success? ==> r.Success? && IsGenerated(r.value, userId, ttl, scope, now, random.value)
      ensures r.Success? ==>
        docs == if insertFault.None? then old(docs) + [Persisted(r.value)] else old(docs)
    {
      var token := GenerateToken(userId, ttl, scope, now, random);
      if token.Failure? {
        return token;
      }
      var _ := Insert(token.value, insertFault);
      return token;
    }

    /**
      GetUserIDForToken: the owner of the first document whose digest, scope
      and expiry match; ErrRecordNotFound when none does; the datastore's
      error, unchanged, when the call fails.
    */
    method GetUserIDForToken(scope: string, plain: Bytes, now: Time, fault: Option<Error>)
      returns (r: Result<ObjectId, Error>)
      requires fault.Some? ==> DriverError(fault.value)
      ensures fault.Some? ==> r == Failure(fault.value)
      ensures fault.None? && r.Failure? ==> r.error == RecordNotFound
      ensures r == Failure(RecordNotFound) <==> fault.None? && FindOne(docs, Sum256(plain), scope, now).None?
      ensures fault.None? && r.Success? ==>
        exists i :: 0 <= i < |docs| && Matches(docs[i], Sum256(plain), scope, now) && docs[i].userId == r.value
      ensures fault.None? ==>
        (r == Failure(RecordNotFound) <==> forall i :: 0 <= i < |docs| ==> !Matches(docs[i], Sum256(plain), scope, now))
      ensures fault.None? && r.Success? ==> r.value == FindOne(docs, Sum256(plain), scope, now).value.userId
    {
      var hash := Sum256(plain);
      if fault.Some? {
        return Failure(fault.value);
      }
      var found := FindOne(docs, hash, scope, now);
      if found.None? {
        return Failure(RecordNotFound);
      }
      return Success(found.value.userId);
    }

    /**
      DeleteAllForUser: DeleteMany of the user's tokens of one scope. It
      succeeds when nothing matches; a failed call is taken to delete nothing.
    */
    method DeleteAllForUser(scope: string, userId: ObjectId, fault: Option<Error>) returns (err: Option<Error>)
      requires fault.Some? ==> DriverError(fault.value)
      modifies this
      ensures err == fault
      ensures docs == if fault.None? then Without(old(docs), scope, userId) else old(docs)
    {
      if fault.Some? {
        return fault;
      }
      docs := Without(docs, scope, userId);
      return None;
    }
  }

  /**
    Issue a token and look its plaintext up later under the same scope: the
    lookup finds the owner at any time before the token expires, provided
    no document already stored matches the new token's digest and scope.
  */
  method IssueThenResolve(tokens: TokenModel, userId: ObjectId, ttl: Time, scope: string, now: Time,
                          random: Bytes, later: Time)
    returns (owner: Result<ObjectId, Error>)
    requires |random| == RandomBytes
    requires later < now + ttl
    requires FindOne(tokens.docs, Sum256(Base32.EncodeNoPadding(random)), scope, later).None?
    modifies tokens
    ensures owner == Success(userId)
  {
    var token := tokens.New(userId, ttl, scope, now, Success(random), None);
    IssuedTokenResolves(old(tokens.docs), token.value, userId, ttl, scope, now, random, later);
    owner := tokens.GetUserIDForToken(scope, token.value.plainToken, later, None);
  }
}
