/** The eight-byte keys of the bolt `lru` bucket. */
module BigEndian {
  import opened Basics

  const TWO_TO_64: int := 0x1_0000_0000_0000_0000

  type uint64 = n: int | 0 <= n < TWO_TO_64

  function Pow256(n: nat): nat { if n == 0 then 1 else 256 * Pow256(n - 1) }

  /** The low `n` bytes of `v`, most significant first. */
  function Digits(v: nat, n: nat): (b: Bytes)
    ensures |b| == n
  {
    if n == 0 then [] else Digits(v / 256, n - 1) + [(v % 256) as byte]
  }

  function Value(b: Bytes): nat {
    if b == [] then 0 else 256 * Value(b[..|b| - 1]) + b[|b| - 1] as int
  }

  function ToBytes(v: nat): (b: Bytes)
    requires v < TWO_TO_64
    ensures |b| == 8
  {
    Digits(v, 8)
  }

  function ToUint64(b: Bytes): nat
    requires |b| == 8
  {
    Value(b)
  }

  /** Order of keys in a bucket. */
  predicate Less(a: Bytes, b: Bytes) {
    if b == [] then false
    else if a == [] then true
    else if a[0] != b[0] then a[0] < b[0]
    else Less(a[1..], b[1..])
  }

  lemma Pow256Of8()
    ensures Pow256(8) == TWO_TO_64
  {
    assert Pow256(4) == 0x1_0000_0000;
    assert Pow256(8) == 256 * (256 * (256 * (256 * Pow256(4))));
  }

  lemma {:induction false} ValueOfDigits(v: nat, n: nat)
    requires v < Pow256(n)
    ensures Value(Digits(v, n)) == v
  {
    if n > 0 {
      ValueOfDigits(v / 256, n - 1);
      assert Digits(v, n)[..n - 1] == Digits(v / 256, n - 1);
    }
  }

  lemma {:induction false} DigitsOfValue(b: Bytes)
    ensures Value(b) < Pow256(|b|) && Digits(Value(b), |b|) == b
  {
    if b != [] {
      DigitsOfValue(b[..|b| - 1]);
      assert Value(b) / 256 == Value(b[..|b| - 1]);
    }
  }

  lemma {:induction false} LessOnLastDigit(p: Bytes, q: Bytes, x: byte, y: byte)
    requires |p| == |q|
    ensures Less(p + [x], q + [y]) <==> Less(p, q) || (p == q && x < y)
  {
    if p == [] {
      assert p + [x] == [x] && q + [y] == [y];
    } else {
      LessOnLastDigit(p[1..], q[1..], x, y);
      assert (p + [x])[1..] == p[1..] + [x];
      assert (q + [y])[1..] == q[1..] + [y];
      assert p == [p[0]] + p[1..] && q == [q[0]] + q[1..];
    }
  }

  lemma QuotientOrder(a: nat, b: nat)
    ensures a < b <==> a / 256 < b / 256 || (a / 256 == b / 256 && a % 256 < b % 256)
  {
  }

  lemma {:induction false} DigitsOrder(a: nat, b: nat, n: nat)
    requires a < Pow256(n) && b < Pow256(n)
    ensures Less(Digits(a, n), Digits(b, n)) <==> a < b
  {
    if n > 0 {
      DigitsOrder(a / 256, b / 256, n - 1);
      ValueOfDigits(a / 256, n - 1);
      ValueOfDigits(b / 256, n - 1);
      LessOnLastDigit(Digits(a / 256, n - 1), Digits(b / 256, n - 1), (a % 256) as byte, (b % 256) as byte);
      QuotientOrder(a, b);
    }
  }

  /** The key codec is a bijection between eight-byte strings and uint64. */
  lemma KeyCodecBijective(v: nat, b: Bytes)
    requires v < TWO_TO_64 && |b| == 8
    ensures ToUint64(ToBytes(v)) == v
    ensures ToUint64(b) < TWO_TO_64 && ToBytes(ToUint64(b)) == b
  {
    Pow256Of8();
    ValueOfDigits(v, 8);
    DigitsOfValue(b);
  }

  /** Byte order of the keys is numeric order of the sequence numbers. */
  lemma KeyOrder(a: nat, b: nat)
    requires a < TWO_TO_64 && b < TWO_TO_64
    ensures Less(ToBytes(a), ToBytes(b)) <==> a < b
    ensures ToBytes(a) == ToBytes(b) <==> a == b
  {
    Pow256Of8();
    DigitsOrder(a, b, 8);
    ValueOfDigits(a, 8);
    ValueOfDigits(b, 8);
  }
}
