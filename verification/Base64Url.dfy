/** Unpadded base64url, section 5 of RFC 4648, as the coder and the signing methods use it. */
module Base64Url {
  import opened Basics

  /** Table 2 of section 5 of RFC 4648. */
  const UPPER: string := "ABCDEFGHIJKLMNOPQRSTUVWXYZ"
  const LOWER: string := "abcdefghijklmnopqrstuvwxyz"
  const DECIMAL: string := "0123456789"
  const ALPHABET: string := UPPER + LOWER + DECIMAL + "-_"

  function EncodeDigit(d: nat): char
    requires d < 64
  {
    if d < 26 then ('A' as int + d) as char
    else if d < 52 then ('a' as int + d - 26) as char
    else if d < 62 then ('0' as int + d - 52) as char
    else if d == 62 then '-'
    else '_'
  }

  function DecodeDigit(c: char): Option<int> {
    if 'A' <= c <= 'Z' then Some(c as int - 'A' as int)
    else if 'a' <= c <= 'z' then Some(c as int - 'a' as int + 26)
    else if '0' <= c <= '9' then Some(c as int - '0' as int + 52)
    else if c == '-' then Some(62)
    else if c == '_' then Some(63)
    else None
  }

  /** Three bytes make four digits; a tail of one or two bytes makes two or three. */
  function Encode(b: Bytes): string {
    if |b| == 0 then []
    else
      var b0 := b[0] as int;
      if |b| == 1 then
        [EncodeDigit(b0 / 4), EncodeDigit(b0 % 4 * 16)]
      else
        var b1 := b[1] as int;
        if |b| == 2 then
          [EncodeDigit(b0 / 4), EncodeDigit(b0 % 4 * 16 + b1 / 16), EncodeDigit(b1 % 16 * 4)]
        else
          var b2 := b[2] as int;
          [EncodeDigit(b0 / 4), EncodeDigit(b0 % 4 * 16 + b1 / 16),
           EncodeDigit(b1 % 16 * 4 + b2 / 64), EncodeDigit(b2 % 64)] + Encode(b[3..])
  }

  predicate LineBreak(c: char) { c == '\n' || c == '\r' }

  function StripLineBreaks(s: string): string {
    if s == [] then []
    else (if LineBreak(s[0]) then [] else [s[0]]) + StripLineBreaks(s[1..])
  }

  /** Digits of `s`, or None when a character is outside the alphabet. */
  function Digits(s: string): (r: Option<seq<int>>)
    ensures r.Some? ==> |r.value| == |s| && forall i :: 0 <= i < |s| ==> 0 <= r.value[i] < 64
  {
    if s == [] then Some([])
    else
      match (DecodeDigit(s[0]), Digits(s[1..]))
      case (Some(d), Some(ds)) => Some([d] + ds)
      case _ => None
  }

  /** The decoder does not require the unused bits of the last digit to be zero. */
  function FromDigits(ds: seq<int>): Option<Bytes>
    requires forall i :: 0 <= i < |ds| ==> 0 <= ds[i] < 64
  {
    if |ds| == 0 then Some([])
    else if |ds| == 1 then None
    else
      var b0 := (ds[0] * 4 + ds[1] / 16) as byte;
      if |ds| == 2 then Some([b0])
      else
        var b1 := (ds[1] % 16 * 16 + ds[2] / 4) as byte;
        if |ds| == 3 then Some([b0, b1])
        else
          var b2 := (ds[2] % 4 * 64 + ds[3]) as byte;
          match FromDigits(ds[4..])
          case Some(rest) => Some([b0, b1, b2] + rest)
          case None => None
  }

  function Decode(s: string): Option<Bytes> {
    match Digits(StripLineBreaks(s))
    case Some(ds) => FromDigits(ds)
    case None => None
  }

  lemma DigitRoundTrip(d: nat)
    requires d < 64
    ensures DecodeDigit(EncodeDigit(d)) == Some(d)
    ensures EncodeDigit(d) != '.' && !LineBreak(EncodeDigit(d))
  {
    if d < 26 {
      assert 'A' <= EncodeDigit(d) <= 'Z';
    } else if d < 52 {
      assert 'a' <= EncodeDigit(d) <= 'z';
    } else if d < 62 {
      assert '0' <= EncodeDigit(d) <= '9';
    }
  }

  lemma Letters(d: nat)
    requires d < 26
    ensures UPPER[d] == ('A' as int + d) as char && LOWER[d] == ('a' as int + d) as char
  {
  }

  lemma Decimals(d: nat)
    requires d < 10
    ensures DECIMAL[d] == ('0' as int + d) as char
  {
  }

  /** The digit of value `d` is the alphabet's. */
  lemma EncodesAlphabet(d: nat)
    requires d < 64
    ensures |ALPHABET| == 64 && EncodeDigit(d) == ALPHABET[d]
  {
    assert |UPPER| == 26 && |LOWER| == 26 && |DECIMAL| == 10;
    if d < 26 {
      Letters(d);
    } else if d < 52 {
      Letters(d - 26);
      assert ALPHABET[d] == LOWER[d - 26];
    } else if d < 62 {
      Decimals(d - 52);
      assert ALPHABET[d] == DECIMAL[d - 52];
    }
  }

  /** And a character is a digit exactly when it is in the alphabet, of the value of its place there. */
  lemma DecodesAlphabet(c: char)
    ensures DecodeDigit(c).Some? <==> c in ALPHABET
    ensures DecodeDigit(c).Some? ==> 0 <= DecodeDigit(c).value < |ALPHABET| && ALPHABET[DecodeDigit(c).value] == c
  {
    hide EncodeDigit, DecodeDigit;
    EncodesAlphabet(0);
    if DecodeDigit(c).Some? {
      DecodedDigit(c);
      EncodesAlphabet(DecodeDigit(c).value);
    }
    if c in ALPHABET {
      var d: nat :| d < |ALPHABET| && ALPHABET[d] == c;
      EncodesAlphabet(d);
      DigitRoundTrip(d);
    }
  }

  lemma DecodedDigit(c: char)
    requires DecodeDigit(c).Some?
    ensures 0 <= DecodeDigit(c).value < 64 && EncodeDigit(DecodeDigit(c).value) == c
  {
  }

  /** The digit values behind Encode's characters. */
  function EncodedDigits(b: Bytes): (ds: seq<int>)
    ensures forall i :: 0 <= i < |ds| ==> 0 <= ds[i] < 64
  {
    if |b| == 0 then []
    else
      var b0 := b[0] as int;
      if |b| == 1 then [b0 / 4, b0 % 4 * 16]
      else
        var b1 := b[1] as int;
        if |b| == 2 then [b0 / 4, b0 % 4 * 16 + b1 / 16, b1 % 16 * 4]
        else
          var b2 := b[2] as int;
          [b0 / 4, b0 % 4 * 16 + b1 / 16, b1 % 16 * 4 + b2 / 64, b2 % 64] + EncodedDigits(b[3..])
  }

  lemma {:induction false} EncodeIsDigitwise(b: Bytes)
    ensures |Encode(b)| == |EncodedDigits(b)|
    ensures forall i :: 0 <= i < |Encode(b)| ==> Encode(b)[i] == EncodeDigit(EncodedDigits(b)[i])
  {
    if |b| >= 3 {
      EncodeIsDigitwise(b[3..]);
    }
  }

  lemma NoDigits()
    ensures FromDigits([]) == Some([]) && EncodedDigits([]) == []
  {
  }

  lemma DigitsOfOne(b0: byte)
    ensures EncodedDigits([b0]) == [b0 as int / 4, b0 as int % 4 * 16]
  {
  }

  lemma DigitsOfTwo(b0: byte, b1: byte)
    ensures EncodedDigits([b0, b1]) == [b0 as int / 4, b0 as int % 4 * 16 + b1 as int / 16, b1 as int % 16 * 4]
  {
  }

  lemma DigitsOfMore(b0: byte, b1: byte, b2: byte, rest: Bytes)
    ensures EncodedDigits([b0, b1, b2] + rest)
         == [b0 as int / 4, b0 as int % 4 * 16 + b1 as int / 16, b1 as int % 16 * 4 + b2 as int / 64, b2 as int % 64]
            + EncodedDigits(rest)
  {
    assert ([b0, b1, b2] + rest)[3..] == rest;
  }

  lemma FromTwo(d0: int, d1: int, b0: byte)
    requires 0 <= d0 < 64 && 0 <= d1 < 64 && b0 as int == d0 * 4 + d1 / 16
    ensures FromDigits([d0, d1]) == Some([b0])
  {
  }

  lemma FromThree(d0: int, d1: int, d2: int, b0: byte, b1: byte)
    requires 0 <= d0 < 64 && 0 <= d1 < 64 && 0 <= d2 < 64
    requires b0 as int == d0 * 4 + d1 / 16 && b1 as int == d1 % 16 * 16 + d2 / 4
    ensures FromDigits([d0, d1, d2]) == Some([b0, b1])
  {
  }

  lemma FromLong(ds: seq<int>, b0: byte, b1: byte, b2: byte)
    requires |ds| >= 4 && forall i :: 0 <= i < |ds| ==> 0 <= ds[i] < 64
    requires b0 as int == ds[0] * 4 + ds[1] / 16 && b1 as int == ds[1] % 16 * 16 + ds[2] / 4
    requires b2 as int == ds[2] % 4 * 64 + ds[3]
    ensures FromDigits(ds)
         == match FromDigits(ds[4..]) case Some(rest) => Some([b0, b1, b2] + rest) case None => None
  {
  }

  /** Regrouping bytes into six-bit digits and back. */
  lemma Degroup(b0: int, b1: int, b2: int)
    requires 0 <= b0 < 256 && 0 <= b1 < 256 && 0 <= b2 < 256
    ensures
      var d0, d1, d2, d3 := b0 / 4, b0 % 4 * 16 + b1 / 16, b1 % 16 * 4 + b2 / 64, b2 % 64;
      && 0 <= d0 < 64 && 0 <= d1 < 64 && 0 <= d2 < 64 && 0 <= d3 < 64
      && d0 * 4 + d1 / 16 == b0 && d1 % 16 * 16 + d2 / 4 == b1 && d2 % 4 * 64 + d3 == b2
  {
    var d1, d2 := b0 % 4 * 16 + b1 / 16, b1 % 16 * 4 + b2 / 64;
    assert d1 / 16 == b0 % 4 && d1 % 16 == b1 / 16;
    assert d2 / 4 == b1 % 16 && d2 % 4 == b2 / 64;
  }

  lemma {:induction false} FromEncodedDigits(b: Bytes)
    ensures FromDigits(EncodedDigits(b)) == Some(b)
  {
    hide FromDigits, EncodedDigits;
    if b == [] {
      NoDigits();
    } else {
      var b0 := b[0] as int;
      var b1, b2 := if |b| > 1 then b[1] as int else 0, if |b| > 2 then b[2] as int else 0;
      Degroup(b0, b1, b2);
      if |b| == 1 {
        assert b == [b[0]];
        DigitsOfOne(b[0]);
        FromTwo(b0 / 4, b0 % 4 * 16, b[0]);
      } else if |b| == 2 {
        assert b == [b[0], b[1]];
        DigitsOfTwo(b[0], b[1]);
        FromThree(b0 / 4, b0 % 4 * 16 + b1 / 16, b1 % 16 * 4, b[0], b[1]);
      } else {
        assert b == [b[0], b[1], b[2]] + b[3..];
        DigitsOfMore(b[0], b[1], b[2], b[3..]);
        FromEncodedDigits(b[3..]);
        var ds := EncodedDigits(b);
        assert ds[4..] == EncodedDigits(b[3..]);
        FromLong(ds, b[0], b[1], b[2]);
      }
    }
  }

  lemma {:induction false} DigitsOfText(s: string, ds: seq<int>)
    requires |s| == |ds|
    requires forall i :: 0 <= i < |ds| ==> 0 <= ds[i] < 64 && s[i] == EncodeDigit(ds[i])
    ensures StripLineBreaks(s) == s && Digits(s) == Some(ds)
  {
    hide DecodeDigit, EncodeDigit, LineBreak;
    if s != [] {
      DigitRoundTrip(ds[0]);
      DigitsOfText(s[1..], ds[1..]);
      assert ds == [ds[0]] + ds[1..];
      assert s == [s[0]] + s[1..];
    }
  }

  /** Decoding undoes encoding, so no two byte strings share an encoding. */
  lemma DecodeAfterEncode(b: Bytes)
    ensures Decode(Encode(b)) == Some(b)
  {
    EncodeIsDigitwise(b);
    DigitsOfText(Encode(b), EncodedDigits(b));
    FromEncodedDigits(b);
  }

  /** The next group of up to three bytes as a 24-bit number, zero bits filling up a short one. */
  function Group(b: Bytes): (n: nat)
    requires b != []
    ensures n < 0x1000000
  {
    b[0] as int * 0x10000 + (if |b| > 1 then b[1] as int * 0x100 else 0) + (if |b| > 2 then b[2] as int else 0)
  }

  /** The four digits of such a number, most significant first. */
  function Quartet(n: nat): (ds: seq<nat>)
    requires n < 0x1000000
    ensures |ds| == 4 && forall i :: 0 <= i < 4 ==> ds[i] < 64
  {
    [n / 0x40000, n / 0x1000 % 64, n / 64 % 64, n % 64]
  }

  lemma QuartetIs(n: nat, d0: nat, d1: nat, d2: nat, d3: nat)
    requires n == d0 * 0x40000 + d1 * 0x1000 + d2 * 64 + d3 < 0x1000000
    requires d1 < 64 && d2 < 64 && d3 < 64
    ensures Quartet(n) == [d0, d1, d2, d3]
  {
    assert n / 0x40000 == d0;
    assert n / 0x1000 == d0 * 64 + d1;
    assert n / 64 == (d0 * 64 + d1) * 64 + d2;
  }

  lemma QuartetOfGroup(b: Bytes)
    requires b != []
    ensures
      var b0, b1, b2 := b[0] as int, (if |b| > 1 then b[1] as int else 0), (if |b| > 2 then b[2] as int else 0);
      Quartet(Group(b)) == [b0 / 4, b0 % 4 * 16 + b1 / 16, b1 % 16 * 4 + b2 / 64, b2 % 64]
  {
    hide Quartet;
    var b0, b1, b2 := b[0] as int, (if |b| > 1 then b[1] as int else 0), (if |b| > 2 then b[2] as int else 0);
    QuartetIs(Group(b), b0 / 4, b0 % 4 * 16 + b1 / 16, b1 % 16 * 4 + b2 / 64, b2 % 64);
  }

  /** The digits of all groups, a group of one or two bytes giving only its first two or three. */
  function GroupDigits(b: Bytes): (ds: seq<nat>)
    ensures forall i :: 0 <= i < |ds| ==> ds[i] < 64
  {
    if b == [] then []
    else if |b| == 1 then Quartet(Group(b))[..2]
    else if |b| == 2 then Quartet(Group(b))[..3]
    else Quartet(Group(b)) + GroupDigits(b[3..])
  }

  lemma {:induction false} DigitsByGroup(b: Bytes)
    ensures EncodedDigits(b) == GroupDigits(b)
  {
    hide Quartet, Group;
    if b != [] {
      QuartetOfGroup(b);
      if |b| >= 3 {
        DigitsByGroup(b[3..]);
      }
    }
  }

  /** Encoding goes by groups, each digit of a group's number being written as the alphabet's character for it. */
  lemma EncodeByGroup(b: Bytes)
    ensures |Encode(b)| == |GroupDigits(b)|
    ensures forall i :: 0 <= i < |Encode(b)| ==>
      GroupDigits(b)[i] < |ALPHABET| && Encode(b)[i] == ALPHABET[GroupDigits(b)[i]]
  {
    hide Encode, EncodedDigits, GroupDigits, EncodeDigit;
    EncodeIsDigitwise(b);
    DigitsByGroup(b);
    forall i | 0 <= i < |Encode(b)|
      ensures GroupDigits(b)[i] < |ALPHABET| && Encode(b)[i] == ALPHABET[GroupDigits(b)[i]]
    {
      EncodesAlphabet(GroupDigits(b)[i]);
    }
  }

  lemma {:induction false} DigitsAccept(s: string)
    ensures Digits(s).Some? <==> forall c :: c in s ==> c in ALPHABET
  {
    hide DecodeDigit;
    if s != [] {
      DecodesAlphabet(s[0]);
      DigitsAccept(s[1..]);
      assert s == [s[0]] + s[1..];
    }
  }

  lemma {:induction false} FromDigitsAccepts(ds: seq<int>)
    requires forall i :: 0 <= i < |ds| ==> 0 <= ds[i] < 64
    ensures FromDigits(ds).Some? <==> |ds| % 4 != 1
  {
    if |ds| >= 4 {
      FromDigitsAccepts(ds[4..]);
    }
  }

  /** The digits, the last one without the bits that no byte takes up. */
  function Trimmed(ds: seq<int>): seq<int> {
    if |ds| == 2 then [ds[0], ds[1] / 16 * 16]
    else if |ds| == 3 then [ds[0], ds[1], ds[2] / 4 * 4]
    else if |ds| < 4 then ds
    else ds[..4] + Trimmed(ds[4..])
  }

  /** Decoding digits and encoding the bytes again gives the digits back, but for unused bits of the last one. */
  lemma {:induction false} EncodeAfterDecode(ds: seq<int>)
    requires forall i :: 0 <= i < |ds| ==> 0 <= ds[i] < 64
    requires |ds| % 4 != 1
    ensures FromDigits(ds).Some? && EncodedDigits(FromDigits(ds).value) == Trimmed(ds)
  {
    hide FromDigits, EncodedDigits, Trimmed;
    FromDigitsAccepts(ds);
    if |ds| >= 4 {
      LongDigits(ds);
      EncodeAfterDecode(ds[4..]);
      TrimmedLong(ds);
    } else {
      TrimmedShort(ds);
      if |ds| == 2 {
        assert ds == [ds[0], ds[1]];
        TwoDigits(ds[0], ds[1]);
      } else if |ds| == 3 {
        assert ds == [ds[0], ds[1], ds[2]];
        ThreeDigits(ds[0], ds[1], ds[2]);
      } else {
        NoDigits();
      }
    }
  }

  lemma TrimmedShort(ds: seq<int>)
    ensures |ds| < 2 ==> Trimmed(ds) == ds
    ensures |ds| == 2 ==> Trimmed(ds) == [ds[0], ds[1] / 16 * 16]
    ensures |ds| == 3 ==> Trimmed(ds) == [ds[0], ds[1], ds[2] / 4 * 4]
  {
  }

  lemma TrimmedLong(ds: seq<int>)
    requires |ds| >= 4
    ensures Trimmed(ds) == ds[..4] + Trimmed(ds[4..])
  {
  }

  /** Regrouping six-bit digits into bytes and back. */
  lemma Regroup(d0: int, d1: int, d2: int, d3: int)
    requires 0 <= d0 < 64 && 0 <= d1 < 64 && 0 <= d2 < 64 && 0 <= d3 < 64
    ensures
      var b0, b1, b2 := d0 * 4 + d1 / 16, d1 % 16 * 16 + d2 / 4, d2 % 4 * 64 + d3;
      && 0 <= b0 < 256 && 0 <= b1 < 256 && 0 <= b2 < 256
      && b0 / 4 == d0 && b0 % 4 * 16 + b1 / 16 == d1 && b1 % 16 * 4 + b2 / 64 == d2 && b2 % 64 == d3
      && b0 % 4 * 16 == d1 / 16 * 16 && b1 % 16 * 4 == d2 / 4 * 4
  {
    var b0, b1, b2 := d0 * 4 + d1 / 16, d1 % 16 * 16 + d2 / 4, d2 % 4 * 64 + d3;
    assert b0 / 4 == d0 && b0 % 4 == d1 / 16;
    assert b1 / 16 == d1 % 16 && b1 % 16 == d2 / 4;
    assert b2 / 64 == d2 % 4 && b2 % 64 == d3;
  }

  lemma TwoDigits(d0: int, d1: int)
    requires 0 <= d0 < 64 && 0 <= d1 < 64
    ensures FromDigits([d0, d1]).Some? && EncodedDigits(FromDigits([d0, d1]).value) == [d0, d1 / 16 * 16]
  {
    hide EncodedDigits, FromDigits;
    Regroup(d0, d1, 0, 0);
    var b0 := (d0 * 4 + d1 / 16) as byte;
    FromTwo(d0, d1, b0);
    DigitsOfOne(b0);
  }

  lemma ThreeDigits(d0: int, d1: int, d2: int)
    requires 0 <= d0 < 64 && 0 <= d1 < 64 && 0 <= d2 < 64
    ensures FromDigits([d0, d1, d2]).Some?
    ensures EncodedDigits(FromDigits([d0, d1, d2]).value) == [d0, d1, d2 / 4 * 4]
  {
    hide EncodedDigits, FromDigits;
    Regroup(d0, d1, d2, 0);
    var b0, b1 := (d0 * 4 + d1 / 16) as byte, (d1 % 16 * 16 + d2 / 4) as byte;
    FromThree(d0, d1, d2, b0, b1);
    DigitsOfTwo(b0, b1);
  }

  lemma LongDigits(ds: seq<int>)
    requires |ds| >= 4 && forall i :: 0 <= i < |ds| ==> 0 <= ds[i] < 64
    requires FromDigits(ds).Some?
    ensures FromDigits(ds[4..]).Some?
    ensures EncodedDigits(FromDigits(ds).value) == ds[..4] + EncodedDigits(FromDigits(ds[4..]).value)
  {
    hide EncodedDigits, FromDigits;
    Regroup(ds[0], ds[1], ds[2], ds[3]);
    var b0, b1 := (ds[0] * 4 + ds[1] / 16) as byte, (ds[1] % 16 * 16 + ds[2] / 4) as byte;
    var b2 := (ds[2] % 4 * 64 + ds[3]) as byte;
    FromLong(ds, b0, b1, b2);
    DigitsOfMore(b0, b1, b2, FromDigits(ds[4..]).value);
    assert ds[..4] == [ds[0], ds[1], ds[2], ds[3]];
  }

  /** What decodes: line breaks aside, characters of the alphabet, and not one alone at the end. */
  lemma DecodeAccepts(s: string)
    ensures Decode(s).Some? <==>
      (forall c :: c in StripLineBreaks(s) ==> c in ALPHABET) && |StripLineBreaks(s)| % 4 != 1
  {
    hide Digits, FromDigits;
    DigitsAccept(StripLineBreaks(s));
    if Digits(StripLineBreaks(s)).Some? {
      FromDigitsAccepts(Digits(StripLineBreaks(s)).value);
    }
  }

  lemma EncodeInjective(a: Bytes, b: Bytes)
    ensures Encode(a) == Encode(b) <==> a == b
  {
    DecodeAfterEncode(a);
    DecodeAfterEncode(b);
  }

  /** No encoding contains the token separator. */
  lemma EncodeDotFree(b: Bytes)
    ensures '.' !in Encode(b)
  {
    EncodeIsDigitwise(b);
    forall i | 0 <= i < |Encode(b)|
      ensures Encode(b)[i] != '.'
    {
      DigitRoundTrip(EncodedDigits(b)[i]);
    }
  }
}
