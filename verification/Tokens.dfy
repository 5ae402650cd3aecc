/** The token grammar: id.sessionid.signature. */
module Tokens {
  import opened Basics

  const SEPARATOR: char := '.'

  predicate DotFree(s: string) { SEPARATOR !in s }

  /** Number of separators in `s`. */
  function Dots(s: string): nat {
    if s == [] then 0 else (if s[0] == SEPARATOR then 1 else 0) + Dots(s[1..])
  }

  /** Position of the first `c`, or -1. */
  function IndexOf(s: string, c: char): (r: int)
    ensures -1 <= r < |s|
    ensures 0 <= r ==> s[r] == c
    ensures forall k :: 0 <= k < (if r < 0 then |s| else r) ==> s[k] != c
  {
    if s == [] then -1
    else if s[0] == c then 0
    else
      var r := IndexOf(s[1..], c);
      assert forall k :: 1 <= k < |s| ==> s[k] == s[1..][k - 1];
      if r < 0 then -1 else r + 1
  }

  /** Position of the last `c`, or -1. */
  function LastIndexOf(s: string, c: char): (r: int)
    ensures -1 <= r < |s|
    ensures 0 <= r ==> s[r] == c
    ensures forall k :: r < k < |s| ==> s[k] != c
  {
    if s == [] then -1
    else if s[|s| - 1] == c then |s| - 1
    else LastIndexOf(s[..|s| - 1], c)
  }

  datatype Parts = Parts(id: string, sessionid: string, signature: string)

  /** The elements with one separator between neighbours. */
  function Join(elems: seq<string>): string {
    if |elems| == 0 then []
    else if |elems| == 1 then elems[0]
    else elems[0] + [SEPARATOR] + Join(elems[1..])
  }

  function JoinParts(p: Parts): string { Join([p.id, p.sessionid, p.signature]) }

  /** The signature follows the last separator; the id precedes the first separator before it. */
  function Split(token: string): Result<Parts> {
    var index := LastIndexOf(token, SEPARATOR);
    if index == -1 then Err(TokenInvalid)
    else
      var signature := token[index + 1..];
      var signingString := token[..index];
      var first := IndexOf(signingString, SEPARATOR);
      if first == -1 then Err(TokenInvalid)
      else Ok(Parts(signingString[..first], signingString[first + 1..], signature))
  }

  /** The first error among the tokens, if any. */
  method IsToken(tokens: seq<string>) returns (e: Option<Error>)
    ensures e == None <==> forall t :: t in tokens ==> Dots(t) >= 2
    ensures e.Some? ==> e.value == TokenInvalid
  {
    e := None;
    for i := 0 to |tokens|
      invariant e == None
      invariant forall t :: t in tokens[..i] ==> Dots(t) >= 2
    {
      SplitAcceptsTwoDots(tokens[i]);
      match Split(tokens[i]) {
        case Err(err) => return Some(err);
        case Ok(_) =>
      }
    }
  }

  lemma {:induction false} DotsConcat(a: string, b: string)
    ensures Dots(a + b) == Dots(a) + Dots(b)
  {
    if a == [] {
      assert a + b == b;
    } else {
      assert (a + b)[1..] == a[1..] + b;
      DotsConcat(a[1..], b);
    }
  }

  lemma {:induction false} DotsZero(s: string)
    ensures Dots(s) == 0 <==> DotFree(s)
  {
    if s != [] {
      DotsZero(s[1..]);
      assert s == [s[0]] + s[1..];
    }
  }

  lemma JoinThree(p: Parts)
    ensures JoinParts(p) == p.id + [SEPARATOR] + p.sessionid + [SEPARATOR] + p.signature
  {
    assert [p.id, p.sessionid, p.signature][1..] == [p.sessionid, p.signature];
    assert [p.sessionid, p.signature][1..] == [p.signature];
    assert Join([p.sessionid, p.signature]) == p.sessionid + [SEPARATOR] + p.signature;
  }

  lemma JoinTwo(a: string, b: string)
    ensures Join([a, b]) == a + [SEPARATOR] + b
  {
    assert [a, b][1..] == [b];
    assert Join([b]) == b;
  }

  /** Position of the only cut whose right side has no `c`. */
  lemma LastIndexUnique(s: string, c: char, i: nat)
    requires i < |s| && s[i] == c && c !in s[i + 1..]
    ensures LastIndexOf(s, c) == i
  {
    hide LastIndexOf;
    assert forall k :: i < k < |s| ==> s[k] == s[i + 1..][k - i - 1];
  }

  /** Position of the only cut whose left side has no `c`. */
  lemma FirstIndexUnique(s: string, c: char, i: nat)
    requires i < |s| && s[i] == c && c !in s[..i]
    ensures IndexOf(s, c) == i
  {
    hide IndexOf;
    assert forall k :: 0 <= k < i ==> s[k] == s[..i][k];
  }

  /** Split loses nothing: the parts join to the token, and the outer two hold no separator. */
  lemma JoinAfterSplit(token: string)
    requires Split(token).Ok?
    ensures JoinParts(Split(token).value) == token
    ensures DotFree(Split(token).value.id) && DotFree(Split(token).value.signature)
  {
    hide IndexOf, LastIndexOf, JoinParts;
    var p := Split(token).value;
    var last := LastIndexOf(token, SEPARATOR);
    var signing := token[..last];
    var first := IndexOf(signing, SEPARATOR);
    JoinThree(p);
    assert token == signing + [SEPARATOR] + p.signature;
    assert signing == p.id + [SEPARATOR] + p.sessionid;
  }

  lemma SplitOfDotFreeJoin(p: Parts)
    requires DotFree(p.id) && DotFree(p.signature)
    ensures Split(JoinParts(p)) == Ok(p)
  {
    var token := JoinParts(p);
    JoinThree(p);
    var signing := p.id + [SEPARATOR] + p.sessionid;
    assert token[|signing| + 1..] == p.signature;
    LastIndexUnique(token, SEPARATOR, |signing|);
    assert token[..|signing|] == signing;
    assert signing[..|p.id|] == p.id;
    FirstIndexUnique(signing, SEPARATOR, |p.id|);
    assert signing[|p.id| + 1..] == p.sessionid;
  }

  /** Splitting a joined token gives the parts back exactly when id and signature hold no separator. */
  lemma SplitAfterJoin(p: Parts)
    ensures Split(JoinParts(p)) == Ok(p) <==> DotFree(p.id) && DotFree(p.signature)
  {
    if Split(JoinParts(p)) == Ok(p) {
      JoinAfterSplit(JoinParts(p));
    }
    if DotFree(p.id) && DotFree(p.signature) {
      SplitOfDotFreeJoin(p);
    }
  }

  lemma OneDot()
    ensures Dots([SEPARATOR]) == 1
  {
  }

  /** A token is accepted exactly when it holds two separators or more. */
  lemma SplitAcceptsTwoDots(token: string)
    ensures Split(token).Ok? <==> Dots(token) >= 2
  {
    hide IndexOf, LastIndexOf, Dots;
    OneDot();
    var last := LastIndexOf(token, SEPARATOR);
    if last == -1 {
      DotsZero(token);
    } else {
      var signing := token[..last];
      assert token == signing + [SEPARATOR] + token[last + 1..];
      DotsConcat(signing + [SEPARATOR], token[last + 1..]);
      DotsConcat(signing, [SEPARATOR]);
      DotsZero(token[last + 1..]);
      DotsZero(signing);
      if IndexOf(signing, SEPARATOR) == -1 {
        assert Dots(token) == 1;
      } else {
        assert signing[IndexOf(signing, SEPARATOR)] in signing;
      }
    }
  }
}
