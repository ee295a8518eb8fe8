/** Numbers written with 58 digits: addresses and acknowledgement data in text form. */
module Base58 {
  import opened Bytes

  const ONE: byte := 49

  /** The alphabet as it is stored, in increasing order and followed by a zero. */
  function Alphabet(i: nat): (r: byte)
    requires i <= 58
  {
    if i < 9 then 49 + i
    else if i < 17 then 65 + (i - 9)
    else if i < 22 then 74 + (i - 17)
    else if i < 33 then 80 + (i - 22)
    else if i < 44 then 97 + (i - 33)
    else if i < 58 then 109 + (i - 44)
    else 0
  }

  /** The value of a digit, or -1. */
  function DigitValue(ch: byte): int
  {
    if 49 <= ch <= 57 then ch - 49
    else if 65 <= ch <= 72 then ch - 65 + 9
    else if 74 <= ch <= 78 then ch - 74 + 17
    else if 80 <= ch <= 90 then ch - 80 + 22
    else if 97 <= ch <= 107 then ch - 97 + 33
    else if 109 <= ch <= 122 then ch - 109 + 44
    else -1
  }

  /** get_digit_value: the binary search finds exactly the digits, although it may end
      on the zero after the alphabet. */
  method GetDigitValue(digit: byte) returns (r: int)
    ensures r == DigitValue(digit)
    ensures r == -1 || (0 <= r < 58 && Alphabet(r) == digit)
    ensures r == -1 ==> forall i: nat :: i < 58 ==> Alphabet(i) != digit
  {
    var min: nat, max: nat := 0, 58;
    while max > min
      invariant min <= max <= 58
      invariant forall i: nat :: i < min ==> Alphabet(i) < digit
      invariant forall i: nat :: max <= i < 58 ==> Alphabet(i) >= digit
    {
      var mid := (min + max) / 2;
      if Alphabet(mid) < digit {
        min := mid + 1;
      } else {
        max := mid;
      }
    }
    assert min == 58 ==> Alphabet(57) < digit;
    if Alphabet(min) == digit {
      return min;
    }
    assert DigitValue(digit) >= 0 ==> Alphabet(DigitValue(digit)) == digit;
    return -1;
  }

  /** The digits of a number, most significant first; none for zero. */
  function Digits(n: nat): seq<byte>
  {
    if n == 0 then [] else Digits(n / 58) + [Alphabet(n % 58)]
  }

  function EncodeNumber(n: nat): seq<byte>
  {
    if n == 0 then [ONE] else Digits(n)
  }

  function Encode(input: seq<byte>): seq<byte>
  {
    EncodeNumber(FromBe(input))
  }

  function Reversed(s: seq<byte>): (r: seq<byte>)
    ensures |r| == |s|
  {
    seq(|s|, i requires 0 <= i < |s| => s[|s| - 1 - i])
  }

  /** reverse_bytes */
  method ReverseBytes(data: array<byte>)
    modifies data
    ensures data[..] == Reversed(old(data[..]))
  {
    var n, i := data.Length, 0;
    while i < n / 2
      invariant 0 <= i <= n / 2
      invariant forall k :: 0 <= k < i ==> data[k] == old(data[n - 1 - k]) && data[n - 1 - k] == old(data[k])
      invariant forall k :: i <= k < n - i ==> data[k] == old(data[k])
    {
      var tmp := data[i];
      data[i] := data[n - 1 - i];
      data[n - 1 - i] := tmp;
      i := i + 1;
    }
  }

  /** The digits come out least significant first and are reversed at the end. */
  method EncodeInPlace(input: seq<byte>) returns (output: seq<byte>)
    ensures output == Encode(input)
  {
    var val := FromBe(input);
    var p: seq<byte> := [];
    if val == 0 {
      p := [Alphabet(0)];
    } else {
      ghost var n := val;
      assert Digits(val) + Reversed(p) == Digits(val);
      while val != 0
        invariant Digits(n) == Digits(val) + Reversed(p)
      {
        var part := val % 58;
        assert Reversed(p + [Alphabet(part)]) == [Alphabet(part)] + Reversed(p);
        assert Digits(val / 58) + [Alphabet(part)] + Reversed(p) == Digits(val / 58) + ([Alphabet(part)] + Reversed(p));
        val := val / 58;
        p := p + [Alphabet(part)];
      }
      assert Digits(n) == Reversed(p);
    }
    var data := new byte[|p|](i requires 0 <= i < |p| => p[i]);
    assert data[..] == p;
    ReverseBytes(data);
    output := data[..];
  }

  // ---------------------------------------------------------------- decoding

  /** The number that digits denote. */
  function Number(s: seq<byte>): Option<nat>
  {
    if s == [] then Some(0)
    else
      var more, digit := Number(s[..|s| - 1]), DigitValue(s[|s| - 1]);
      if more.None? || digit == -1 then None else Some(more.value * 58 + digit)
  }

  /** BN_num_bytes */
  function NumBytes(n: nat): nat
  {
    if n == 0 then 0 else 1 + NumBytes(n / 256)
  }

  /** A number in as few octets as possible. */
  function Minimal(n: nat): seq<byte>
  {
    Be(n, NumBytes(n))
  }

  function Decode(input: seq<byte>, limit: nat): Option<seq<byte>>
  {
    match Number(input)
    case None => None
    case Some(n) =>
      if NumBytes(n) > limit then None
      else if n == 0 && input == [ONE] then Some([0])
      else Some(Minimal(n))
  }

  lemma {:induction false} NumberBroken(s: seq<byte>, i: nat)
    requires i <= |s| && Number(s[..i]).None?
    ensures Number(s).None?
    decreases |s| - i
  {
    if i < |s| {
      assert s[..i + 1][..i] == s[..i];
      NumberBroken(s, i + 1);
    } else {
      assert s[..i] == s;
    }
  }

  lemma NumBytesZero(n: nat)
    ensures NumBytes(n) == 0 <==> n == 0
  {
  }

  method DecodeDigits(input: seq<byte>, limit: nat) returns (r: Option<seq<byte>>)
    ensures r == Decode(input, limit)
  {
    var val: nat, i := 0, 0;
    while i < |input|
      invariant i <= |input| && Number(input[..i]) == Some(val)
    {
      assert input[..i + 1][..i] == input[..i];
      var digit := GetDigitValue(input[i]);
      if digit == -1 {
        NumberBroken(input, i + 1);
        return None;
      }
      val := val * 58;
      val := val + digit;
      i := i + 1;
    }
    assert input[..i] == input;
    NumBytesZero(val);
    if NumBytes(val) > limit {
      return None;
    }
    if NumBytes(val) == 0 && |input| == 1 && input[0] == Alphabet(0) {
      return Some([0]);
    }
    return Some(Minimal(val));
  }

  // -------------------------------------------------------------- round trip

  lemma DigitRoundTrip(i: nat)
    requires i < 58
    ensures DigitValue(Alphabet(i)) == i
  {
  }

  lemma {:induction false} NumberOfDigits(n: nat)
    ensures Number(Digits(n)) == Some(n)
  {
    if n != 0 {
      NumberOfDigits(n / 58);
      DigitRoundTrip(n % 58);
      assert Digits(n)[..|Digits(n)| - 1] == Digits(n / 58);
    }
  }

  /** A number below a power of 256 has at most that many octets. */
  lemma {:induction false} NumBytesBound(n: nat, width: nat)
    requires n < Pow256(width)
    ensures NumBytes(n) <= width
    decreases width
  {
    if n != 0 {
      NumBytesBound(n / 256, width - 1);
    }
  }

  lemma ZeroRoundTrip(limit: nat)
    ensures Decode([ONE], limit) == Some([0])
  {
    assert [ONE][..0] == [] && DigitValue(ONE) == 0;
    assert Number([ONE]) == Some(0);
  }

  lemma DecodeNumber(s: seq<byte>, n: nat, limit: nat)
    requires Number(s) == Some(n) && n != 0 && NumBytes(n) <= limit
    ensures Decode(s, limit) == Some(Minimal(n))
  {
  }

  /** The digits of octets give back the octets without their leading zeros. */
  lemma RoundTrip(input: seq<byte>, limit: nat)
    requires |input| <= limit
    ensures var n := FromBe(input);
      Decode(Encode(input), limit) == Some(if n == 0 then [0] else Minimal(n))
  {
    var n := FromBe(input);
    if n == 0 {
      ZeroRoundTrip(limit);
    } else {
      FromBeBound(input);
      NumBytesBound(n, |input|);
      NumberOfDigits(n);
      DecodeNumber(Digits(n), n, limit);
    }
  }

  lemma {:induction false} MinimalFits(n: nat, width: nat)
    requires NumBytes(n) <= width
    ensures Be(n, width) == Zeros(width - NumBytes(n)) + Minimal(n)
    decreases width
  {
    if width == 0 {
    } else if n == 0 {
      MinimalFits(0, width - 1);
      assert Zeros(width) == Zeros(width - 1) + [0];
    } else {
      MinimalFits(n / 256, width - 1);
      assert Minimal(n) == Minimal(n / 256) + [n % 256];
    }
  }

  /** Padded on the left to the old length, what is read is what was written. */
  lemma PaddedRoundTrip(input: seq<byte>)
    requires input != []
    ensures var r := Decode(Encode(input), |input|);
      r.Some? && |r.value| <= |input| && Zeros(|input| - |r.value|) + r.value == input
  {
    var n := FromBe(input);
    RoundTrip(input, |input|);
    FromBeBound(input);
    NumBytesBound(n, |input|);
    MinimalFits(n, |input|);
    FromBeRoundTrip(input);
    if n == 0 {
      assert Zeros(|input|) == Zeros(|input| - 1) + [0];
    }
  }

  lemma {:induction false} LeadingOctet(s: seq<byte>)
    requires s != [] && s[0] != 0
    ensures NumBytes(FromBe(s)) == |s|
    decreases |s|
  {
    var t := s[..|s| - 1];
    if t != [] {
      LeadingOctet(t);
      assert FromBe(t) != 0;
    }
    DivModUnique(FromBe(s), 256, FromBe(t), s[|s| - 1]);
  }

  /** Octets that do not start with a zero come back exactly. */
  lemma ExactRoundTrip(input: seq<byte>, limit: nat)
    requires input != [] && input[0] != 0 && |input| <= limit
    ensures Decode(Encode(input), limit) == Some(input)
  {
    LeadingOctet(input);
    RoundTrip(input, limit);
    FromBeRoundTrip(input);
  }

  lemma {:induction false} MinimalLeads(n: nat)
    requires n != 0
    ensures |Minimal(n)| >= 1 && Minimal(n)[0] != 0
  {
    if n >= 256 {
      MinimalLeads(n / 256);
      assert Minimal(n) == Minimal(n / 256) + [n % 256];
    } else {
      assert n / 256 == 0 && NumBytes(n / 256) == 0 && NumBytes(n) == 1;
      assert Minimal(n) == Be(n / 256, 0) + [n % 256];
    }
  }

  /** Only one octet can be read as a zero; longer output never starts with one. */
  lemma DecodeLeads(input: seq<byte>, limit: nat)
    requires Decode(input, limit).Some? && |Decode(input, limit).value| > 1
    ensures Decode(input, limit).value[0] != 0
  {
    var n := Number(input).value;
    if n != 0 {
      MinimalLeads(n);
    }
  }

  lemma DecodeSize(input: seq<byte>, limit: nat)
    requires limit >= 1
    ensures Decode(input, limit).Some? ==> |Decode(input, limit).value| <= limit
  {
  }

  lemma {:induction false} DigitsAreDigits(n: nat)
    ensures forall i :: 0 <= i < |Digits(n)| ==> 49 <= Digits(n)[i] <= 122 && DigitValue(Digits(n)[i]) >= 0
  {
    if n != 0 {
      DigitsAreDigits(n / 58);
    }
  }

  /** Encoded text is never empty and has only digits. */
  lemma EncodePlain(input: seq<byte>)
    ensures Encode(input) != [] && forall i :: 0 <= i < |Encode(input)| ==> 49 <= Encode(input)[i] <= 122
  {
    DigitsAreDigits(FromBe(input));
  }

  // -------------------------------------------------------------- output size

  function Pow58(k: nat): (r: nat)
    ensures r >= 1
  {
    if k == 0 then 1 else 58 * Pow58(k - 1)
  }

  lemma {:induction false} DigitsBound(n: nat, k: nat)
    requires n < Pow58(k)
    ensures |Digits(n)| <= k
    decreases k
  {
    if n != 0 {
      DigitsBound(n / 58, k - 1);
    }
  }

  lemma Pow58Seven(k: nat)
    ensures Pow58(k + 7) == 58 * 58 * 58 * 58 * 58 * 58 * 58 * Pow58(k)
  {
    assert Pow58(k + 1) == 58 * Pow58(k);
    assert Pow58(k + 2) == 58 * Pow58(k + 1);
    assert Pow58(k + 3) == 58 * Pow58(k + 2);
    assert Pow58(k + 4) == 58 * Pow58(k + 3);
    assert Pow58(k + 5) == 58 * Pow58(k + 4);
    assert Pow58(k + 6) == 58 * Pow58(k + 5);
  }

  lemma Pow256Five(k: nat)
    ensures Pow256(k + 5) == 256 * 256 * 256 * 256 * 256 * Pow256(k)
  {
    assert Pow256(k + 1) == 256 * Pow256(k);
    assert Pow256(k + 2) == 256 * Pow256(k + 1);
    assert Pow256(k + 3) == 256 * Pow256(k + 2);
    assert Pow256(k + 4) == 256 * Pow256(k + 3);
  }

  function Pow2(k: nat): nat
  {
    if k == 0 then 1 else 2 * Pow2(k - 1)
  }

  /** Seven digits hold five octets twice over. */
  lemma {:induction false} SevenForFive(groups: nat)
    ensures Pow58(7 * groups) >= Pow2(groups) * Pow256(5 * groups)
  {
    if groups > 0 {
      var g := groups - 1;
      SevenForFive(g);
      Pow58Seven(7 * g);
      Pow256Five(5 * g);
      assert 7 * groups == 7 * g + 7 && 5 * groups == 5 * g + 5;
      assert Pow2(groups) * Pow256(5 * groups) == 2 * 256 * 256 * 256 * 256 * 256 * (Pow2(g) * Pow256(5 * g));
    }
  }

  lemma EncodeFits(input: seq<byte>, k: nat)
    requires 1 <= k && Pow256(|input|) <= Pow58(k)
    ensures |Encode(input)| <= k
  {
    FromBeBound(input);
    DigitsBound(FromBe(input), k);
  }

  lemma {:induction false} Pow256Monotone(a: nat, b: nat)
    requires a <= b
    ensures Pow256(a) <= Pow256(b)
    decreases b - a
  {
    if a < b {
      Pow256Monotone(a, b - 1);
    }
  }

  lemma OneMore(input: seq<byte>, groups: nat)
    requires |input| <= 5 * groups + 1 && Pow2(groups) * 58 >= 256
    ensures |Encode(input)| <= 7 * groups + 1
  {
    var p, q, r := Pow2(groups), Pow256(5 * groups), Pow58(7 * groups);
    SevenForFive(groups);
    assert 58 * r >= 256 * q by {
      assert 58 * r >= 58 * (p * q);
      assert (p * 58) * q == 58 * (p * q);
      MulMonotone(256, p * 58, q);
    }
    assert Pow58(7 * groups + 1) == 58 * r && Pow256(5 * groups + 1) == 256 * q;
    Pow256Monotone(|input|, 5 * groups + 1);
    EncodeFits(input, 7 * groups + 1);
  }

  lemma TwoMore(input: seq<byte>, groups: nat)
    requires |input| <= 5 * groups + 2 && Pow2(groups) * 3364 >= 65536
    ensures |Encode(input)| <= 7 * groups + 2
  {
    var p, q, r := Pow2(groups), Pow256(5 * groups), Pow58(7 * groups);
    SevenForFive(groups);
    assert 3364 * r >= 65536 * q by {
      assert 3364 * r >= 3364 * (p * q);
      assert (p * 3364) * q == 3364 * (p * q);
      MulMonotone(65536, p * 3364, q);
    }
    assert Pow58(7 * groups + 1) == 58 * r && Pow256(5 * groups + 1) == 256 * q;
    assert Pow58(7 * groups + 2) == 3364 * r && Pow256(5 * groups + 2) == 65536 * q;
    Pow256Monotone(|input|, 5 * groups + 2);
    EncodeFits(input, 7 * groups + 2);
  }

  /** The 26 octets of an address need at most 36 digits. */
  lemma AddressDigits(input: seq<byte>)
    requires |input| <= 26
    ensures |Encode(input)| <= 36
  {
    assert Pow2(5) == 32 by { assert Pow2(3) == 8; }
    OneMore(input, 5);
  }

  /** The 32 octets of acknowledgement data need at most 44 digits. */
  lemma AckdataDigits(input: seq<byte>)
    requires |input| == 32
    ensures |Encode(input)| <= 44
  {
    assert Pow2(6) == 64 by { assert Pow2(3) == 8; }
    TwoMore(input, 6);
  }
}
