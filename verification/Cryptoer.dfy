/** Signing methods, and the second token codec of the cryptoer package. */
module Cryptoer {
  import opened Basics
  import Base64Url
  import Tokens

  /** An HMAC signing method: the keyed digest is a parameter, as is whether its hash is linked in. */
  datatype SigningMethod = SigningMethod(available: bool, mac: (Bytes, string) -> Bytes) {

    function Sign(message: string, key: Bytes): Result<string> {
      if available then Ok(Base64Url.Encode(mac(key, message))) else Err(HashUnavailable)
    }

    /** The error, or None when the signature is good. */
    function Verify(message: string, signature: string, key: Bytes): Option<Error> {
      match Base64Url.Decode(signature)
      case None => Some(SignatureInvalid)
      case Some(sig) =>
        if !available then Some(HashUnavailable)
        else if sig != mac(key, message) then Some(SignatureInvalid)
        else None
    }

    /** A signature is dot-free and verifies, for its own message, key and method. */
    lemma SignThenVerify(message: string, key: Bytes)
      requires Sign(message, key).Ok?
      ensures Tokens.DotFree(Sign(message, key).value)
      ensures Verify(message, Sign(message, key).value, key) == None
    {
      Base64Url.DecodeAfterEncode(mac(key, message));
      Base64Url.EncodeDotFree(mac(key, message));
    }

    /** A signature is good exactly when it decodes to the digest that Sign makes for the same message and key. */
    lemma VerifyIff(message: string, signature: string, key: Bytes)
      ensures Verify(message, signature, key) == None <==>
        && Sign(message, key).Ok?
        && Base64Url.Decode(signature) == Base64Url.Decode(Sign(message, key).value) == Some(mac(key, message))
      ensures Base64Url.Decode(signature) == None ==> Verify(message, signature, key) == Some(SignatureInvalid)
    {
      hide Base64Url.Decode, Base64Url.Encode;
      Base64Url.DecodeAfterEncode(mac(key, message));
    }

    /** A signature made for one message verifies another only if their digests collide. */
    lemma VerifyOnlyOwnDigest(message: string, other: string, key: Bytes)
      requires Sign(message, key).Ok?
      ensures Verify(other, Sign(message, key).value, key) == None <==> mac(key, other) == mac(key, message)
    {
      Base64Url.DecodeAfterEncode(mac(key, message));
    }
  }

  function Encode(m: SigningMethod, key: Bytes, id: string, sessionid: string): Result<string> {
    var value := id + "." + sessionid;
    match m.Sign(value, key)
    case Err(e) => Err(e)
    case Ok(sig) => Ok(value + "." + sig)
  }

  datatype Decoded = Decoded(id: string, sessionid: string)

  /** The cuts `Decode` makes before it verifies anything: (signed prefix length, id length). */
  function Cuts(token: string): (r: Option<(nat, nat)>)
    ensures r.Some? ==> r.value.1 < r.value.0 < |token|
  {
    var index := Tokens.LastIndexOf(token, '.');
    if index < 1 then None
    else
      var i := Tokens.LastIndexOf(token[..index], '.');
      if i < 0 then None else Some((index, i))
  }

  function Decode(m: SigningMethod, key: Bytes, token: string): Result<Decoded> {
    match Cuts(token)
    case None => Err(TokenInvalid)
    case Some((index, i)) =>
      var value := token[..index];
      match m.Verify(value, token[index + 1..], key)
      case Some(e) => Err(e)
      case None => Ok(Decoded(value[..i], value[i + 1..]))
  }

  /** Decode undoes Encode whenever the session id holds no dot; the id may. */
  lemma DecodeAfterEncode(m: SigningMethod, key: Bytes, id: string, sessionid: string)
    requires m.available
    ensures Encode(m, key, id, sessionid).Ok?
    ensures Decode(m, key, Encode(m, key, id, sessionid).value) == Ok(Decoded(id, sessionid))
        <==> Tokens.DotFree(sessionid)
  {
    var value := id + "." + sessionid;
    var sig := m.Sign(value, key).value;
    var token := Encode(m, key, id, sessionid).value;
    m.SignThenVerify(value, key);
    assert token[|value| + 1..] == sig;
    Tokens.LastIndexUnique(token, '.', |value|);
    assert token[..|value|] == value;
    if Tokens.DotFree(sessionid) {
      assert value[|id| + 1..] == sessionid;
      Tokens.LastIndexUnique(value, '.', |id|);
      assert value[..|id|] == id;
    } else {
      var i := Tokens.LastIndexOf(value, '.');
      assert Tokens.DotFree(value[i + 1..]);
    }
  }

  /** What Decode makes of any token. Without two dots it is invalid; otherwise its last two dots cut it into an id, a
      session id and a signature, which are the answer exactly when the signature is good for what precedes it. */
  lemma DecodeIff(m: SigningMethod, key: Bytes, id: string, sessionid: string, signature: string)
    requires Tokens.DotFree(sessionid) && Tokens.DotFree(signature)
    ensures
      var value := id + "." + sessionid;
      Decode(m, key, value + "." + signature)
      == match m.Verify(value, signature, key)
         case None => Ok(Decoded(id, sessionid))
         case Some(e) => Err(e)
  {
    var value := id + "." + sessionid;
    var token := value + "." + signature;
    assert token[|value| + 1..] == signature;
    Tokens.LastIndexUnique(token, '.', |value|);
    assert token[..|value|] == value;
    assert value[|id| + 1..] == sessionid;
    Tokens.LastIndexUnique(value, '.', |id|);
    assert value[..|id|] == id;
  }

  lemma DecodeShapes(m: SigningMethod, key: Bytes, token: string)
    ensures Tokens.Dots(token) < 2 ==> Decode(m, key, token) == Err(TokenInvalid)
    ensures Tokens.Dots(token) >= 2 ==> exists id, sessionid, signature ::
      Tokens.DotFree(sessionid) && Tokens.DotFree(signature) && token == id + "." + sessionid + "." + signature
  {
    hide Tokens.Split, Tokens.Dots, Tokens.LastIndexOf, SigningMethod.Verify;
    SameShapes(token);
    Tokens.SplitAcceptsTwoDots(token);
    if Tokens.Dots(token) >= 2 {
      var (index, i) := Cuts(token).value;
      var value, signature := token[..index], token[index + 1..];
      var id, sessionid := value[..i], value[i + 1..];
      assert value == id + "." + sessionid && token == value + "." + signature;
      assert Tokens.DotFree(sessionid) && Tokens.DotFree(signature);
    }
  }

  /** Before verification both parsers accept the same tokens: the `index < 1` guard rejects nothing more. */
  lemma SameShapes(token: string)
    ensures Cuts(token).Some? <==> Tokens.Split(token).Ok?
  {
    hide Tokens.IndexOf, Tokens.LastIndexOf;
    var index := Tokens.LastIndexOf(token, '.');
    if index >= 0 {
      SomeDot(token[..index]);
    }
  }

  lemma SomeDot(s: string)
    ensures Tokens.IndexOf(s, '.') >= 0 <==> Tokens.LastIndexOf(s, '.') >= 0
  {
    hide Tokens.IndexOf, Tokens.LastIndexOf;
  }

  /** On an accepted token the two parsers name the same id and session id exactly when it has two dots. */
  lemma ParsersAgreeOnTwoDots(token: string)
    requires Cuts(token).Some?
    ensures Tokens.Split(token).Ok?
    ensures
      var (index, i) := Cuts(token).value;
      var p := Tokens.Split(token).value;
      (token[..index][..i] == p.id && token[..index][i + 1..] == p.sessionid) <==> Tokens.Dots(token) == 2
  {
    hide Tokens.Dots, Tokens.IndexOf, Tokens.LastIndexOf;
    SameShapes(token);
    var (index, i) := Cuts(token).value;
    var p := Tokens.Split(token).value;
    var signing := token[..index];
    var first := Tokens.IndexOf(signing, '.');
    assert token == signing + "." + token[index + 1..];
    assert signing == signing[..first] + "." + signing[first + 1..];
    Tokens.DotsConcat(signing + ".", token[index + 1..]);
    Tokens.DotsConcat(signing, ".");
    Tokens.DotsConcat(signing[..first] + ".", signing[first + 1..]);
    Tokens.DotsConcat(signing[..first], ".");
    Tokens.DotsZero(token[index + 1..]);
    Tokens.DotsZero(signing[..first]);
    Tokens.DotsZero(signing[first + 1..]);
    Tokens.OneDot();
    assert Tokens.Dots(token) == 2 <==> Tokens.DotFree(signing[first + 1..]);
    if Tokens.DotFree(signing[first + 1..]) {
      Tokens.LastIndexUnique(signing, '.', first);
    } else {
      assert i != first;
      assert |signing[..i]| != |signing[..first]|;
    }
  }
}
