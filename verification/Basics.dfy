/** Types shared by every part of the model. */
module Basics {

  newtype byte = x: int | 0 <= x < 256

  type Bytes = seq<byte>

  datatype Option<+T> = None | Some(value: T)

  /** The error values of errors.go, plus the two foreign ones that can surface: bolt's refusal of an
      empty key, and the signing method's own errors. */
  datatype Error =
    | TokenExpired
    | TokenInvalid
    | TokenNotExists
    | TokenIDNotMatched
    | RefreshTokenNotMatched
    | ProviderReturnNotMatch
    | ProviderClosed
    | KeyNotExists
    | CoderFailed
    | BoltKeyRequired
    | BoltBucketNotFound
    | SignatureInvalid
    | HashUnavailable

  datatype Result<+T> = Ok(value: T) | Err(error: Error)

  /** Whether `xs` holds no element twice. */
  ghost predicate NoDup<T>(xs: seq<T>) {
    forall i, j :: 0 <= i < j < |xs| ==> xs[i] != xs[j]
  }

  /** `xs` without its first `x` (all of `xs` when there is none). */
  function RemoveFirst<T(==)>(xs: seq<T>, x: T): seq<T> {
    if xs == [] then []
    else if xs[0] == x then xs[1..]
    else [xs[0]] + RemoveFirst(xs[1..], x)
  }

  /** Removing an element at its first position closes the gap and keeps the order of the rest. */
  lemma {:induction false} RemoveFirstAt<T>(xs: seq<T>, i: nat)
    requires i < |xs|
    requires xs[i] !in xs[..i]
    ensures RemoveFirst(xs, xs[i]) == xs[..i] + xs[i + 1..]
  {
    if i > 0 {
      assert xs[1..][i - 1] == xs[i];
      assert xs[1..][..i - 1] == xs[..i][1..];
      RemoveFirstAt(xs[1..], i - 1);
      assert xs[1..][i..] == xs[i + 1..];
      assert xs[0] == xs[..i][0];
    }
  }

  /** What is left after a removal from a list without duplicates: everything but the element, once each. */
  lemma {:induction false} RemoveFirstKeepsRest<T>(xs: seq<T>, x: T)
    requires NoDup(xs)
    ensures NoDup(RemoveFirst(xs, x))
    ensures forall y :: y in RemoveFirst(xs, x) <==> y in xs && y != x
    ensures |RemoveFirst(xs, x)| == |xs| - (if x in xs then 1 else 0)
  {
    if xs != [] {
      var rest := xs[1..];
      assert xs == [xs[0]] + rest;
      assert NoDup(rest);
      assert xs[0] !in rest;
      RemoveFirstKeepsRest(rest, x);
    }
  }
}
