/** The manager: signed tokens in front of a provider. Random session ids are parameters. */
module Managers {
  import opened Basics
  import opened Clocks
  import opened Cryptoer
  import opened MemoryProviders
  import SessionCaches
  import opened Sessions
  import Base64Url
  import Index
  import Laws
  import Store
  import Tokens

  /** createToken: sign `id.sessionid`, then append the signature. */
  function CreateToken(m: SigningMethod, key: Bytes, id: string, uuid: Bytes): Result<string> {
    var signingString := Tokens.Join([id, Base64Url.Encode(uuid)]);
    match m.Sign(signingString, key)
    case Err(e) => Err(e)
    case Ok(signature) => Ok(Tokens.Join([signingString, signature]))
  }

  /** CreateToken: an access and a refresh token for one id. */
  function CreateTokens(m: SigningMethod, key: Bytes, id: string, uuid1: Bytes, uuid2: Bytes)
    : Result<(string, string)>
  {
    match CreateToken(m, key, id, uuid1)
    case Err(e) => Err(e)
    case Ok(access) =>
      match CreateToken(m, key, id, uuid2)
      case Err(e) => Err(e)
      case Ok(refresh) => Ok((access, refresh))
  }

  /** Split a token and verify what precedes its signature; the token's id if it is genuine. */
  function Genuine(m: SigningMethod, key: Bytes, token: string): Result<string> {
    match Tokens.Split(token)
    case Err(e) => Err(e)
    case Ok(p) =>
      Tokens.JoinAfterSplit(token);
      Tokens.JoinThree(p);
      match m.Verify(token[..|token| - |p.signature| - 1], p.signature, key)
      case Some(e) => Err(e)
      case None => Ok(p.id)
  }

  /** The tests Refresh makes on a pair of tokens. */
  function GenuinePair(m: SigningMethod, key: Bytes, access: string, refresh: string): Result<string> {
    match Genuine(m, key, access)
    case Err(e) => Err(e)
    case Ok(id) =>
      match Genuine(m, key, refresh)
      case Err(e) => Err(e)
      case Ok(id1) => if id != id1 then Err(TokenIDNotMatched) else Ok(id)
  }

  /** What createToken signs is what Get and Refresh verify; the id comes back exactly when it holds no dot. */
  lemma CreatedIsGenuine(m: SigningMethod, key: Bytes, id: string, uuid: Bytes)
    requires m.available
    ensures CreateToken(m, key, id, uuid).Ok?
    ensures
      var token := CreateToken(m, key, id, uuid).value;
      Genuine(m, key, token).Ok? && (Genuine(m, key, token) == Ok(id) <==> Tokens.DotFree(id))
    ensures
      var token := CreateToken(m, key, id, uuid).value;
      Tokens.Split(token).Ok? && Genuine(m, key, token).value == Tokens.Split(token).value.id
  {
    hide Base64Url.Encode, Tokens.Join;
    var sid := Base64Url.Encode(uuid);
    var signing := Tokens.Join([id, sid]);
    Tokens.JoinTwo(id, sid);
    m.SignThenVerify(signing, key);
    var sig := m.Sign(signing, key).value;
    Tokens.JoinTwo(signing, sig);
    Cut(signing + "." + sig, id, sid, sig);
  }

  /** Splitting id.sessionid.signature: the signature comes off cleanly; so does the id, if it holds no dot. */
  lemma Cut(token: string, id: string, sid: string, sig: string)
    requires token == id + "." + sid + "." + sig && Tokens.DotFree(sig)
    ensures Tokens.Split(token).Ok? && Tokens.Split(token).value.signature == sig
    ensures token[..|token| - |sig| - 1] == id + "." + sid
    ensures Tokens.Split(token).value.id == id <==> Tokens.DotFree(id)
  {
    var signing := id + "." + sid;
    assert token[|signing| + 1..] == sig;
    Tokens.LastIndexUnique(token, '.', |signing|);
    assert token[..|signing|] == signing;
    assert signing[|id|] == '.';
    if Tokens.DotFree(id) {
      assert signing[..|id|] == id;
      Tokens.FirstIndexUnique(signing, '.', |id|);
    } else {
      Tokens.JoinAfterSplit(token);
    }
  }

  /** A created token: the id, the session id in base64url, and the digest of both in base64url. */
  lemma CreatedToken(m: SigningMethod, key: Bytes, id: string, uuid: Bytes)
    requires m.available
    ensures
      var message := id + "." + Base64Url.Encode(uuid);
      CreateToken(m, key, id, uuid) == Ok(message + "." + Base64Url.Encode(m.mac(key, message)))
  {
    hide Base64Url.Encode, Tokens.Join;
    Tokens.JoinTwo(id, Base64Url.Encode(uuid));
    var message := id + "." + Base64Url.Encode(uuid);
    Tokens.JoinTwo(message, Base64Url.Encode(m.mac(key, message)));
  }

  /** Two created tokens are the same exactly when id and session id are. */
  lemma CreatedApart(m: SigningMethod, key: Bytes, id1: string, uuid1: Bytes, id2: string, uuid2: Bytes)
    requires m.available
    ensures CreateToken(m, key, id1, uuid1) == CreateToken(m, key, id2, uuid2) <==> id1 == id2 && uuid1 == uuid2
  {
    hide Base64Url.Encode, CreateToken;
    var message1, message2 := id1 + "." + Base64Url.Encode(uuid1), id2 + "." + Base64Url.Encode(uuid2);
    CreatedToken(m, key, id1, uuid1);
    CreatedToken(m, key, id2, uuid2);
    Base64Url.EncodeDotFree(m.mac(key, message1));
    Base64Url.EncodeDotFree(m.mac(key, message2));
    Base64Url.EncodeDotFree(uuid1);
    Base64Url.EncodeDotFree(uuid2);
    Base64Url.EncodeInjective(uuid1, uuid2);
    if CreateToken(m, key, id1, uuid1) == CreateToken(m, key, id2, uuid2) {
      LastDotCuts(message1, Base64Url.Encode(m.mac(key, message1)), message2, Base64Url.Encode(m.mac(key, message2)));
      LastDotCuts(id1, Base64Url.Encode(uuid1), id2, Base64Url.Encode(uuid2));
    }
  }

  /** What is behind the last dot, and what is before it. */
  lemma LastDotCuts(a: string, s: string, b: string, t: string)
    requires a + "." + s == b + "." + t && Tokens.DotFree(s) && Tokens.DotFree(t)
    ensures a == b && s == t
  {
    var token := a + "." + s;
    assert token[|a| + 1..] == s && token[|b| + 1..] == t;
    Tokens.LastIndexUnique(token, '.', |a|);
    Tokens.LastIndexUnique(token, '.', |b|);
    assert token[..|a|] == a && token[..|b|] == b;
  }

  // ---------------------------------------------------------------- which tokens are genuine

  /** The token is `signature` behind the last dot of it, and `message` before. */
  predicate Signed(token: string, message: string, signature: string) {
    token == message + "." + signature && Tokens.DotFree(signature)
  }

  /** What precedes the last dot has a dot of its own, and what follows is a good signature for it. */
  ghost predicate Verifies(m: SigningMethod, key: Bytes, token: string) {
    exists message, signature ::
      Signed(token, message, signature) && Tokens.SEPARATOR in message && m.Verify(message, signature, key) == None
  }

  lemma GenuineCut(m: SigningMethod, key: Bytes, token: string, message: string, signature: string)
    requires Signed(token, message, signature)
    ensures Genuine(m, key, token)
         == if Tokens.SEPARATOR !in message then Err(TokenInvalid)
            else match m.Verify(message, signature, key)
                 case Some(e) => Err(e)
                 case None => Ok(Store.IdOf(token))
  {
    hide SigningMethod.Verify;
    assert token[|message| + 1..] == signature;
    Tokens.LastIndexUnique(token, '.', |message|);
    assert token[..|message|] == message;
  }

  /** A token is genuine exactly when it verifies, and then for the id it splits into; otherwise it has too few dots, or
      the answer is what is wrong with the signature. */
  lemma GenuineIff(m: SigningMethod, key: Bytes, token: string)
    ensures Genuine(m, key, token).Ok? <==> Verifies(m, key, token)
    ensures Genuine(m, key, token).Ok? ==> Genuine(m, key, token).value == Store.IdOf(token)
    ensures Tokens.Dots(token) < 2 ==> Genuine(m, key, token) == Err(TokenInvalid)
    ensures Tokens.Dots(token) >= 2 ==> exists message, signature ::
      Signed(token, message, signature) && Tokens.SEPARATOR in message
    ensures forall message, signature :: Signed(token, message, signature) && Tokens.SEPARATOR in message ==>
      match m.Verify(message, signature, key)
      case None => Genuine(m, key, token).Ok?
      case Some(e) => Genuine(m, key, token) == Err(e)
  {
    hide Genuine, SigningMethod.Verify, Tokens.Dots, Store.IdOf, Signed;
    forall message, signature | Signed(token, message, signature)
      ensures Genuine(m, key, token)
           == if Tokens.SEPARATOR !in message then Err(TokenInvalid)
              else match m.Verify(message, signature, key)
                   case Some(e) => Err(e)
                   case None => Ok(Store.IdOf(token))
    {
      GenuineCut(m, key, token, message, signature);
    }
    GenuineShape(m, key, token);
  }

  lemma GenuineShape(m: SigningMethod, key: Bytes, token: string)
    ensures Tokens.Dots(token) < 2 ==> Genuine(m, key, token) == Err(TokenInvalid)
    ensures Tokens.Dots(token) >= 2 ==> exists message, signature ::
      Signed(token, message, signature) && Tokens.SEPARATOR in message
  {
    hide SigningMethod.Verify, Tokens.Dots, Tokens.IndexOf, Tokens.LastIndexOf;
    Tokens.SplitAcceptsTwoDots(token);
    if Tokens.Dots(token) >= 2 {
      var last := Tokens.LastIndexOf(token, '.');
      var message, signature := token[..last], token[last + 1..];
      assert token == message + "." + signature && Tokens.DotFree(signature);
      assert message[Tokens.IndexOf(message, '.')] == '.';
      assert Signed(token, message, signature);
    } else {
      Laws.SplitFails(token);
    }
  }

  /** The tests of Refresh pass exactly when both tokens verify and have the same id. */
  lemma GenuinePairIff(m: SigningMethod, key: Bytes, access: string, refresh: string, id: string)
    ensures GenuinePair(m, key, access, refresh) == Ok(id) <==>
      && Verifies(m, key, access) && Verifies(m, key, refresh)
      && Store.IdOf(access) == id && Store.IdOf(refresh) == id
  {
    hide Genuine, Verifies, Store.IdOf;
    GenuineIff(m, key, access);
    GenuineIff(m, key, refresh);
  }

  /** The two tokens of one CreateToken call for a dot-free id pass Refresh's tests, and split into that id. */
  lemma PairIsGenuine(m: SigningMethod, key: Bytes, id: string, uuid1: Bytes, uuid2: Bytes)
    requires Tokens.DotFree(id)
    ensures CreateTokens(m, key, id, uuid1, uuid2).Ok? <==> m.available
    ensures !m.available ==> CreateTokens(m, key, id, uuid1, uuid2) == Err(HashUnavailable)
    ensures m.available ==>
      var (access, refresh) := CreateTokens(m, key, id, uuid1, uuid2).value;
      && GenuinePair(m, key, access, refresh) == Ok(id)
      && Store.CheckToken(access) == None && Store.CheckToken(refresh) == None && Store.IdOf(access) == id
      && CreateToken(m, key, id, uuid1) == Ok(access) && CreateToken(m, key, id, uuid2) == Ok(refresh)
      && (access == refresh <==> uuid1 == uuid2)
  {
    hide Genuine, CreateToken;
    Available(m, key, id, uuid1);
    Available(m, key, id, uuid2);
    if m.available {
      CreatedIsGenuine(m, key, id, uuid1);
      CreatedIsGenuine(m, key, id, uuid2);
      CreatedApart(m, key, id, uuid1, id, uuid2);
    }
  }

  lemma Available(m: SigningMethod, key: Bytes, id: string, uuid: Bytes)
    ensures CreateToken(m, key, id, uuid).Ok? <==> m.available
    ensures !m.available ==> CreateToken(m, key, id, uuid) == Err(HashUnavailable)
  {
  }

  /** The tokens made for a user are those of the user's encoded id, and of no other user's. */
  lemma TokenOfUser(m: SigningMethod, key: Bytes, user: Bytes, other: Bytes, uuid: Bytes)
    requires m.available
    ensures CreateToken(m, key, Base64Url.Encode(user), uuid).Ok?
    ensures Store.IdOf(CreateToken(m, key, Base64Url.Encode(user), uuid).value) == Base64Url.Encode(user)
    ensures Store.IdOf(CreateToken(m, key, Base64Url.Encode(user), uuid).value) == Base64Url.Encode(other)
        <==> user == other
  {
    hide Genuine, CreateToken, Base64Url.Encode;
    Base64Url.EncodeDotFree(user);
    CreatedIsGenuine(m, key, Base64Url.Encode(user), uuid);
    Base64Url.EncodeInjective(user, other);
  }

  lemma LookupIds(s: seq<Session>, ids: map<string, seq<string>>, id: string, token: string)
    requires Index.Linked(Index.Table(s, ids))
    ensures Lookup(WithoutId(s, id), token) == if Store.IdOf(token) == id then None else Lookup(s, token)
  {
    hide Index.Linked, Lookup, WithoutId, Store.IdOf;
    Index.LinkedDistinct(Index.Table(s, ids));
    LookupWithoutId(s, id, token);
    if Lookup(s, token).Some? {
      Index.LinkedId(Index.Table(s, ids), token);
    }
  }

  lemma CreateSucceeds(cfg: Config, s: seq<Session>, op: Store.Op, at: int)
    requires op.Create? && Store.Reject(op) == None
    ensures Store.LazyStep(cfg, Store.Open(s), op, at, at).reply == Store.Done
  {
  }

  class LocalManager<!V> {
    const signing: SigningMethod
    const key: Bytes
    const provider: MemoryProvider
    const coder: SessionCaches.Coder<V>

    constructor (signing: SigningMethod, key: Bytes, provider: MemoryProvider, coder: SessionCaches.Coder<V>)
      ensures this.signing == signing && this.key == key && this.provider == provider && this.coder == coder
    {
      this.signing, this.key, this.provider, this.coder := signing, key, provider, coder;
    }

    /** Destroy a user's sessions: every token of that user is gone, every other user's session is as it was. */
    method Destroy(user: Bytes) returns (e: Option<Error>)
      requires provider.Valid()
      modifies provider
      ensures provider.Valid()
      ensures e == if provider.done then Some(ProviderClosed) else None
      ensures forall token :: Store.IdOf(token) == Base64Url.Encode(user) ==> Lookup(provider.sessions, token) == None
      ensures forall token :: Store.IdOf(token) != Base64Url.Encode(user) ==>
        Lookup(provider.sessions, token) == Lookup(old(provider.sessions), token)
      ensures forall other: Bytes, token :: other != user && Store.IdOf(token) == Base64Url.Encode(other) ==>
        Lookup(provider.sessions, token) == Lookup(old(provider.sessions), token)
    {
      hide MemoryProvider.Valid, Base64Url.Encode, Store.IdOf, Lookup, WithoutId;
      Closed();
      Destroyable(Base64Url.Encode(user));
      e := provider.Destroy(Base64Url.Encode(user));
      assert Store.LazyStep(provider.cfg, old(provider.State()), Store.Destroy(Base64Url.Encode(user)), 0, 0)
          == Store.Outcome(provider.State(), Store.ReplyOf(e));
      Closed();
      forall other: Bytes | other != user
        ensures Base64Url.Encode(other) != Base64Url.Encode(user)
      {
        Base64Url.EncodeInjective(other, user);
      }
    }

    lemma Destroyable(id: string)
      requires provider.Valid()
      ensures forall token :: Lookup(WithoutId(provider.sessions, id), token)
                           == if Store.IdOf(token) == id then None else Lookup(provider.sessions, token)
    {
      hide Index.Linked, Lookup, WithoutId, Store.IdOf;
      forall token
        ensures Lookup(WithoutId(provider.sessions, id), token)
             == if Store.IdOf(token) == id then None else Lookup(provider.sessions, token)
      {
        LookupIds(provider.sessions, provider.filed, id, token);
      }
    }

    lemma Closed()
      requires provider.Valid()
      ensures provider.done ==> provider.sessions == []
    {
      hide Index.Linked;
    }

    /** DestroyByToken: exactly the session of that token goes. */
    method DestroyByToken(token: string) returns (e: Option<Error>)
      requires provider.Valid()
      modifies provider, provider.Bufs()
      ensures provider.Valid()
      ensures e == if Store.CheckToken(token).Some? then Store.CheckToken(token)
                   else if old(provider.done) then Some(ProviderClosed) else None
      ensures forall other ::
        Lookup(provider.sessions, other)
        == if e == None && other == token then None else Lookup(old(provider.sessions), other)
      ensures provider.done == old(provider.done)
    {
      hide MemoryProvider.Valid, Without, Lookup;
      Closed();
      e := provider.DestroyByToken(token);
      ghost var s := old(provider.sessions);
      assert Store.LazyStep(provider.cfg, old(provider.State()), Store.DestroyByToken(token), 0, 0)
          == Store.Outcome(provider.State(), Store.ReplyOf(e));
      Closed();
      forall other
        ensures Lookup(Without(s, token), other) == if other == token then None else Lookup(s, other)
      {
        LookupWithout(s, token, other);
      }
    }

    /** The test Get and Refresh make on a token. */
    method Verified(token: string) returns (r: Result<string>)
      requires provider.Valid()
      ensures provider.Valid() && r == Genuine(signing, key, token)
    {
      hide MemoryProvider.Valid, Tokens.Split, Tokens.JoinParts, SigningMethod.Verify;
      var parts := Tokens.Split(token);
      if parts.Err? {
        return Err(parts.error);
      }
      Tokens.JoinAfterSplit(token);
      Tokens.JoinThree(parts.value);
      var signature := parts.value.signature;
      var e := signing.Verify(token[..|token| - |signature| - 1], signature, key);
      if e.Some? {
        return Err(e.value);
      }
      r := Ok(parts.value.id);
    }

    /** A new handle for a token that was accepted. */
    method Handle(id: string, token: string) returns (session: SessionCaches.Session<V>)
      requires provider.Valid()
      ensures provider.Valid() && fresh(session)
      ensures session.id == id && session.token == token && session.keys == map[]
      ensures session.provider == provider && session.coder == coder
    {
      hide Index.Linked;
      session := new SessionCaches.Session(id, token, provider, coder);
    }

    /** Get: a token is accepted exactly when what follows its last dot is a good signature for what precedes it, which
        has a dot of its own; the store is not asked. */
    method Get(token: string) returns (r: Result<SessionCaches.Session<V>>)
      requires provider.Valid()
      ensures provider.Valid()
      ensures r.Ok? <==> Verifies(signing, key, token)
      ensures match Genuine(signing, key, token)
              case Err(e) => r == Err(e)
              case Ok(id) =>
                && r.Ok? && fresh(r.value) && r.value.id == id && r.value.token == token && r.value.keys == map[]
                && r.value.provider == provider && r.value.coder == coder
    {
      hide MemoryProvider.Valid, Genuine, Verifies;
      GenuineIff(signing, key, token);
      var id := Verified(token);
      if id.Err? {
        return Err(id.error);
      }
      var session := Handle(id.value, token);
      r := Ok(session);
    }

    /** Create a session for a user: two signed tokens of the encoded id, the encoded pairs, one provider call. */
    method Create(user: Bytes, uuid1: Bytes, uuid2: Bytes, pairs: seq<(string, V)>, clock: Clock)
      returns (r: Result<(SessionCaches.Session<V>, string)>, ghost op: Store.Op)
      requires provider.Valid()
      modifies provider, provider.Bufs(), clock
      ensures provider.Valid() && old(clock.now) <= clock.now
      ensures !signing.available ==> r == Err(HashUnavailable)
      ensures signing.available && SessionCaches.Encoded(coder, pairs).Err? ==> r == Err(CoderFailed)
      ensures !signing.available || SessionCaches.Encoded(coder, pairs).Err? ==>
        provider.State() == old(provider.State())
      ensures signing.available && SessionCaches.Encoded(coder, pairs).Ok? ==>
        && CreatesFor(user, uuid1, uuid2, pairs, op) && old(clock.now) <= op.stamp <= op.checked <= clock.now
        && Store.LazyStep(provider.cfg, old(provider.State()), op, clock.now, clock.now)
           == Store.Outcome(provider.State(), if r.Ok? then Store.Done else Store.Failed(r.error))
      ensures r.Ok? ==>
        && op.Create? && fresh(r.value.0) && r.value.0.id == Base64Url.Encode(user)
        && r.value.0.token == op.access && r.value.1 == op.refresh
        && r.value.0.keys == map[] && r.value.0.provider == provider && r.value.0.coder == coder
    {
      hide MemoryProvider.Valid, Base64Url.Encode, CreateToken, Genuine, Store.LazyStep, Store.IdOf;
      hide SessionCaches.Encoded;
      op := Store.Close;
      var eid := Base64Url.Encode(user);
      Base64Url.EncodeDotFree(user);
      PairIsGenuine(signing, key, eid, uuid1, uuid2);
      var made := CreateTokens(signing, key, eid, uuid1, uuid2);
      if made.Err? {
        return Err(made.error), op;
      }
      var (access, refresh) := made.value;
      SessionCaches.EncodedEach(coder, pairs);
      var kv, sent := SessionCaches.Encode(provider, coder, pairs);
      if kv.Err? {
        return Err(kv.error), op;
      }
      var e;
      e, op := provider.Create(access, refresh, sent, clock);
      if e != None {
        return Err(e.value), op;
      }
      var session := Handle(eid, access);
      r := Ok((session, refresh));
    }

    /** The one provider call of a Create: two genuine tokens of the user's encoded id, and the encoded pairs. */
    ghost predicate CreatesFor(user: Bytes, uuid1: Bytes, uuid2: Bytes, pairs: seq<(string, V)>, op: Store.Op) {
      && op.Create? && SessionCaches.Encoded(coder, pairs) == Ok(op.pairs)
      && CreateTokens(signing, key, Base64Url.Encode(user), uuid1, uuid2) == Ok((op.access, op.refresh))
      && Store.CheckToken(op.access) == None && Store.CheckToken(op.refresh) == None
      && Store.IdOf(op.access) == Base64Url.Encode(user) && (op.access == op.refresh <==> uuid1 == uuid2)
      && GenuinePair(signing, key, op.access, op.refresh) == Ok(Base64Url.Encode(user))
    }

    /** Refresh: both tokens genuine and of one id; then the provider rotates the session onto two new ones of that
        id. */
    method Refresh(access: string, refresh: string, uuid1: Bytes, uuid2: Bytes, clock: Clock)
      returns (r: Result<(string, string)>, ghost op: Store.Op, ghost now: int, ghost later: int)
      requires provider.Valid()
      modifies provider, provider.lru, provider.Bufs(), clock
      ensures old(clock.now) <= now <= later <= clock.now
      ensures GenuinePair(signing, key, access, refresh).Err? ==>
        r == Err(GenuinePair(signing, key, access, refresh).error) && provider.State() == old(provider.State())
      ensures GenuinePair(signing, key, access, refresh).Ok? ==>
        && Refreshes(access, refresh, uuid1, uuid2, op)
        && Store.LazyStep(provider.cfg, old(provider.State()), op, now, later)
           == Store.Outcome(provider.State(), if r.Ok? then Store.Done else Store.Failed(r.error))
      ensures r.Ok? ==>
        && Verifies(signing, key, access) && Verifies(signing, key, refresh)
        && Store.IdOf(access) == Store.IdOf(refresh)
      ensures r.Ok? ==> op.Refresh? && r.value == (op.newAccess, op.newRefresh)
      ensures r.Ok? ==>
        && provider.Represents() && access in old(provider.tokens)
        && provider.Rotated(old(provider.lru), old(provider.tokens), access, r.value.0)
      ensures provider.Valid() <==> (r.Ok? ==> Store.FreshTarget(old(provider.sessions), op))
    {
      hide MemoryProvider.Valid, MemoryProvider.Represents, MemoryProvider.Rotated, Store.LazyStep, Store.FreshTarget;
      hide Base64Url.Encode, CreateToken, Genuine, Verifies, Store.IdOf;
      GenuinePairIff(signing, key, access, refresh, Store.IdOf(access));
      now, later, op := clock.now, clock.now, Store.Close;
      var id := Verified(access);
      if id.Err? {
        return Err(id.error), op, now, later;
      }
      var id1 := Verified(refresh);
      if id1.Err? {
        return Err(id1.error), op, now, later;
      }
      if id.value != id1.value {
        return Err(TokenIDNotMatched), op, now, later;
      }
      IdOfGenuine(access);
      PairIsGenuine(signing, key, id.value, uuid1, uuid2);
      var made := CreateTokens(signing, key, id.value, uuid1, uuid2);
      if made.Err? {
        // A method that has just verified can also sign.
        assert false;
      }
      var (newAccess, newRefresh) := made.value;
      op := Store.Refresh(access, refresh, newAccess, newRefresh);
      var e;
      e, now, later := provider.Refresh(access, refresh, newAccess, newRefresh, clock);
      r := if e == None then Ok((newAccess, newRefresh)) else Err(e.value);
    }

    /** The one provider call of a Refresh: from the given pair onto a genuine pair of the same id. */
    ghost predicate Refreshes(access: string, refresh: string, uuid1: Bytes, uuid2: Bytes, op: Store.Op) {
      && op.Refresh? && op.access == access && op.refresh == refresh
      && CreateTokens(signing, key, Store.IdOf(access), uuid1, uuid2) == Ok((op.newAccess, op.newRefresh))
      && GenuinePair(signing, key, op.newAccess, op.newRefresh) == Ok(Store.IdOf(access))
      && (op.newAccess == op.newRefresh <==> uuid1 == uuid2)
    }

    /** A token that verifies was signed by an available method, for the id it splits into. */
    lemma IdOfGenuine(token: string)
      requires Genuine(signing, key, token).Ok?
      ensures Genuine(signing, key, token).value == Store.IdOf(token) && Tokens.DotFree(Store.IdOf(token))
      ensures signing.available
    {
      Tokens.JoinAfterSplit(token);
    }

    /** A client's first round trip: what Create stored, the session it returned reads back, each key with the last
        value given for it, as long as the access deadline has not passed. */
    method CreateThenGet(user: Bytes, uuid1: Bytes, uuid2: Bytes, pairs: seq<(string, V)>, name: string, clock: Clock)
      returns (r: Result<V>)
      requires provider.Valid() && !provider.done && signing.available
      requires SessionCaches.Encoded(coder, pairs).Ok?
      requires forall i :: 0 <= i < |pairs| ==> SessionCaches.Undoes(coder, pairs[i].1)
      modifies provider, provider.Bufs(), clock
      ensures provider.Valid()
      ensures clock.now < old(clock.now) + provider.cfg.access && provider.cfg.access <= provider.cfg.refresh ==>
        r == match SessionCaches.LastGiven(pairs, name)
             case Some(v) => Ok(v)
             case None => Err(KeyNotExists)
    {
      hide MemoryProvider.Valid, Store.LazyStep, Base64Url.Encode, CreateToken, Genuine, SessionCaches.Encoded;
      ghost var s := provider.sessions;
      provider.DistinctNow();
      ghost var op;
      var made;
      made, op := Create(user, uuid1, uuid2, pairs, clock);
      ghost var stored, at := provider.State(), clock.now;
      CreateSucceeds(provider.cfg, s, op, at);
      if made.Err? {
        assert false;
      }
      ghost var t, u;
      r, t, u := made.value.0.Get(name, clock);
      if clock.now < old(clock.now) + provider.cfg.access && provider.cfg.access <= provider.cfg.refresh {
        Laws.CreateThenGet(provider.cfg, s, op, at, at, [name], t, u);
        SessionCaches.EncodedEach(coder, pairs);
        SessionCaches.EncodedReadsBack(coder, pairs, op.pairs, name);
      }
    }
  }
}
