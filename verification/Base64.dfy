/** Base64 (section 6.8 of RFC 2045): the streaming decoder, which is lenient about
    characters outside the alphabet and strict about padding, and the encoder. */
module Base64 {
  import opened Bytes
  import opened Stream

  const EQUALS: byte := 61

  /** The value of an alphabet character, or -1. */
  function AlphabetValue(ch: byte): (r: int)
    ensures -1 <= r < 64
  {
    if ch == 47 then 63
    else if ch == 43 then 62
    else if ch <= 57 then (if ch < 48 then -1 else ch - 48 + 52)
    else if ch <= 90 then (if ch < 65 then -1 else ch - 65)
    else if ch <= 122 then (if ch < 97 then -1 else ch - 97 + 26)
    else -1
  }

  function ToAlphabet(value: nat): (r: byte)
    requires value < 64
  {
    if value < 26 then value + 65
    else if value < 52 then value - 26 + 97
    else if value < 62 then value - 52 + 48
    else if value == 62 then 43
    else 47
  }

  lemma AlphabetRoundTrip(value: nat)
    requires value < 64
    ensures AlphabetValue(ToAlphabet(value)) == value
    ensures ToAlphabet(value) !in {EQUALS, 32, 63}
  {
  }

  // ---------------------------------------------------------------- decoding

  /** `value` is the bit pattern of a C int that is only ever shifted left, so its
      high bits are lost and its low bits are the characters since the last group. */
  datatype State = State(nPadding: nat, nChars: nat, value: nat)

  const START := State(0, 0, 0)

  /** The decoder, octet by octet: once padding has begun, only padding and
      characters outside the alphabet may follow. */
  function Octet(s: State, ch: byte): Option<(State, seq<byte>)>
  {
    var v := AlphabetValue(ch);
    if s.nPadding > 0 then
      if ch == EQUALS then
        if s.nPadding + 1 > 2 then None else Some((s.(nPadding := s.nPadding + 1), []))
      else if v != -1 then None
      else Some((s, []))
    else if v >= 0 then
      var value := (s.value * 64 + v) % TWO_32;
      if s.nChars + 1 >= 4
      then Some((State(0, 0, value), [value / 0x1_0000 % 256, value / 0x100 % 256, value % 256]))
      else Some((State(0, s.nChars + 1, value), []))
    else if ch == EQUALS then Some((s.(nPadding := 1), []))
    else Some((s, []))
  }

  function End(s: State): Option<seq<byte>>
  {
    match s.nPadding
    case 0 => if s.nChars != 0 then None else Some([])
    case 1 =>
      if s.nChars != 3 || s.value % 4 != 0 then None
      else Some([s.value / 0x400 % 256, s.value / 4 % 256])
    case 2 =>
      if s.nChars != 2 || s.value % 16 != 0 then None
      else Some([s.value / 16 % 256])
    case _ => None
  }

  /** The whole input at once. */
  function Decode(input: seq<byte>): Option<seq<byte>>
  {
    match Feed(Octet, START, input)
    case None => None
    case Some(r) =>
      match End(r.0)
      case None => None
      case Some(last) => Some(r.1 + last)
  }

  /** The decoder as the source has it: a structure updated in place, fed pieces of
      any size, with a separate scan for what follows the padding. */
  class Decoder {
    var nPadding: nat
    var nChars: nat
    var value: nat

    function Abs(): State
      reads this
    {
      State(nPadding, nChars, value)
    }

    constructor ()
      ensures Abs() == START
    {
      nPadding, nChars, value := 0, 0, 0;
    }

    method Start()
      modifies this
      ensures Abs() == START
    {
      nPadding, nChars, value := 0, 0, 0;
    }

    method HandlePadding(input: seq<byte>, start: nat) returns (ok: bool)
      requires start <= |input|
      requires nPadding > 0 || (start < |input| && input[start] == EQUALS)
      modifies this
      ensures var r := Feed(Octet, old(Abs()), input[start..]);
        ok == r.Some? && (ok ==> r.value == (Abs(), []))
    {
      ghost var s := Abs();
      var i := start;
      assert input[start..start] == [];
      while i < |input|
        invariant start <= i <= |input|
        invariant i == start ==> Abs() == s
        invariant i > start ==> nPadding > 0
        invariant Feed(Octet, s, input[start..i]) == Some((Abs(), []))
      {
        FeedStep(s, input, start, i);
        var ch := input[i];
        if ch == EQUALS {
          nPadding := nPadding + 1;
          if nPadding > 2 {
            FeedBroken(s, input, start, i + 1);
            return false;
          }
        } else if AlphabetValue(ch) != -1 {
          FeedBroken(s, input, start, i + 1);
          return false;
        }
        i := i + 1;
      }
      assert input[start..i] == input[start..];
      return true;
    }

    method Push(input: seq<byte>) returns (out: Option<seq<byte>>)
      modifies this
      ensures var r := Feed(Octet, old(Abs()), input);
        && out.Some? == r.Some?
        && (out.Some? ==> r.value == (Abs(), out.value))
    {
      ghost var s := Abs();
      if nPadding > 0 {
        var ok := HandlePadding(input, 0);
        assert input[0..] == input;
        return if ok then Some([]) else None;
      }
      var octets, i := [], 0;
      assert input[0..0] == [];
      while i < |input|
        invariant i <= |input| && nPadding == 0
        invariant Feed(Octet, s, input[0..i]) == Some((Abs(), octets))
      {
        Extend(s, input[0..i], input[i], Abs(), octets);
        assert input[0..i + 1] == input[0..i] + [input[i]] && octets + [] == octets;
        var v := AlphabetValue(input[i]);
        if v >= 0 {
          value := (value * 64 + v) % TWO_32;
          nChars := nChars + 1;
          if nChars >= 4 {
            octets := octets + [value / 0x1_0000 % 256, value / 0x100 % 256, value % 256];
            nChars := 0;
          }
        } else if input[i] == EQUALS {
          FeedRest(s, input, i);
          var ok := HandlePadding(input, i);
          return if ok then Some(octets) else None;
        }
        i := i + 1;
      }
      assert input[0..i] == input;
      return Some(octets);
    }
  }

  lemma FeedStep(s: State, input: seq<byte>, start: nat, i: nat)
    requires start <= i < |input|
    ensures Feed(Octet, s, input[start..i + 1]) == Then(Octet, Feed(Octet, s, input[start..i]), [input[i]])
    ensures forall t: State :: Feed(Octet, t, [input[i]]) == Octet(t, input[i])
  {
    assert input[start..i + 1] == input[start..i] + [input[i]];
    FeedConcat(Octet, s, input[start..i], [input[i]]);
    forall t: State { FeedOne(Octet, t, input[i]); }
  }

  /** An error in a prefix is final. */
  lemma FeedBroken(s: State, input: seq<byte>, start: nat, i: nat)
    requires start <= i <= |input| && Feed(Octet, s, input[start..i]).None?
    ensures Feed(Octet, s, input[start..]).None?
  {
    assert input[start..] == input[start..i] + input[i..];
    FeedConcat(Octet, s, input[start..i], input[i..]);
  }

  lemma FeedRest(s: State, input: seq<byte>, i: nat)
    requires i <= |input|
    ensures Feed(Octet, s, input) == Then(Octet, Feed(Octet, s, input[0..i]), input[i..])
  {
    assert input == input[0..i] + input[i..];
    FeedConcat(Octet, s, input[0..i], input[i..]);
  }

  // ---------------------------------------------------------------- encoding

  /** The four characters of a 24-bit group. */
  function Quad(value: nat): (r: seq<byte>)
    requires value < 0x100_0000
    ensures |r| == 4
  {
    [ToAlphabet(value / 0x4_0000), ToAlphabet(value / 0x1000 % 64),
     ToAlphabet(value / 0x40 % 64), ToAlphabet(value % 64)]
  }

  function Group(a: byte, b: byte, c: byte): (r: nat)
    ensures r < 0x100_0000
  {
    a * 0x1_0000 + b * 0x100 + c
  }

  function Encode(data: seq<byte>): seq<byte>
  {
    if |data| >= 3 then Quad(Group(data[0], data[1], data[2])) + Encode(data[3..])
    else if |data| == 0 then []
    else if |data| == 1 then Quad(Group(data[0], 0, 0))[..2] + [EQUALS, EQUALS]
    else Quad(Group(data[0], data[1], 0))[..3] + [EQUALS]
  }

  /** The encoding loop. */
  method EncodeLoop(data: seq<byte>) returns (out: seq<byte>)
    ensures out == Encode(data)
  {
    out := [];
    var i := 0;
    assert data[0..] == data && [] + Encode(data) == Encode(data);
    while |data| - i >= 3
      invariant i <= |data|
      invariant Encode(data) == out + Encode(data[i..])
    {
      var value := Group(data[i], data[i + 1], data[i + 2]);
      ghost var rest := data[i..];
      assert rest[0] == data[i] && rest[1] == data[i + 1] && rest[2] == data[i + 2] && rest[3..] == data[i + 3..];
      assert out + (Quad(value) + Encode(rest[3..])) == out + Quad(value) + Encode(rest[3..]);
      out := out + Quad(value);
      i := i + 3;
    }
    if |data| - i == 1 {
      assert data[i..][0] == data[i];
      out := out + Quad(Group(data[i], 0, 0))[..2] + [EQUALS, EQUALS];
    } else if |data| - i == 2 {
      assert data[i..][0] == data[i] && data[i..][1] == data[i + 1];
      out := out + Quad(Group(data[i], data[i + 1], 0))[..3] + [EQUALS];
    }
  }

  function EncodedSize(n: nat): nat
  {
    if n >= 3 then 4 + EncodedSize(n - 3) else if n == 0 then 0 else 4
  }

  lemma {:induction false} EncodedSizeIs(n: nat)
    ensures EncodedSize(n) == (n + 2) / 3 * 4
  {
    if n >= 3 {
      EncodedSizeIs(n - 3);
    }
  }

  lemma {:induction false} EncodeSize(data: seq<byte>)
    ensures |Encode(data)| == EncodedSize(|data|)
  {
    if |data| >= 3 {
      EncodeSize(data[3..]);
    }
  }

  /** Encoded text has no spaces and no question marks. */
  lemma {:induction false} EncodePlain(data: seq<byte>)
    ensures 32 !in Encode(data) && 63 !in Encode(data)
  {
    forall v: nat | v < 64 ensures ToAlphabet(v) != 32 && ToAlphabet(v) != 63 { AlphabetRoundTrip(v); }
    if |data| >= 3 {
      EncodePlain(data[3..]);
    }
  }

  // -------------------------------------------------------------- round trip

  /** Shifting six bits into a word of 32 bits, of which `low` are in use. */
  lemma ShiftIn(v: nat, low: nat, high: nat, acc: nat, c: nat)
    requires low > 0 && high > 0 && 64 * low * high == TWO_32
    requires v % low == acc && c < 64
    ensures (v * 64 + c) % TWO_32 % (64 * low) == acc * 64 + c
  {
    var q := v / low;
    var y := v * 64 + c;
    var t, z := y / TWO_32, y % TWO_32;
    assert v == q * low + acc;
    var w := 64 * low;
    assert z == (q - high * t) * w + (acc * 64 + c) by {
      assert y == q * w + (acc * 64 + c);
      assert t * TWO_32 == (high * t) * w;
    }
    DivModUnique(z, w, q - high * t, acc * 64 + c);
  }

  lemma LowOctets(w: nat, x: nat)
    requires w % 0x100_0000 == x
    ensures w / 0x1_0000 % 256 == x / 0x1_0000 && w / 0x100 % 256 == x / 0x100 % 256 && w % 256 == x % 256
  {
    var q := w / 0x100_0000;
    var a, b := x / 0x1_0000, x % 0x1_0000;
    DivModUnique(w, 0x1_0000, 0x100 * q + a, b);
    DivModUnique(0x100 * q + a, 0x100, q, a);
    var c, d := x / 0x100, x % 0x100;
    DivModUnique(w, 0x100, 0x1_0000 * q + c, d);
    var e, f := c / 0x100, c % 0x100;
    DivModUnique(0x1_0000 * q + c, 0x100, 0x100 * q + e, f);
  }

  lemma Extend(s: State, input: seq<byte>, ch: byte, t: State, out: seq<byte>)
    requires Feed(Octet, s, input) == Some((t, out))
    ensures Feed(Octet, s, input + [ch]) ==
      match Octet(t, ch) case None => None case Some(r) => Some((r.0, out + r.1))
  {
    FeedConcat(Octet, s, input, [ch]);
    FeedOne(Octet, t, ch);
  }

  /** The first two characters of a group, from between groups. */
  lemma TwoChars(v: nat, a: nat, b: nat) returns (w: nat)
    requires v < TWO_32 && a < 64 && b < 64
    ensures w < TWO_32 && w % 0x1000 == a * 64 + b
    ensures Feed(Octet, State(0, 0, v), [ToAlphabet(a), ToAlphabet(b)]) == Some((State(0, 2, w), []))
  {
    var s, a', b' := State(0, 0, v), ToAlphabet(a), ToAlphabet(b);
    AlphabetRoundTrip(a);
    AlphabetRoundTrip(b);
    var v1 := (v * 64 + a) % TWO_32;
    w := (v1 * 64 + b) % TWO_32;
    ShiftIn(v, 1, 0x400_0000, 0, a);
    ShiftIn(v1, 64, 0x10_0000, a, b);
    FeedOne(Octet, s, a');
    assert [a'] + [b'] == [a', b'];
    Extend(s, [a'], b', State(0, 1, v1), []);
  }

  lemma ThreeChars(v: nat, a: nat, b: nat, c: nat) returns (w: nat)
    requires v < TWO_32 && a < 64 && b < 64 && c < 64
    ensures w < TWO_32 && w % 0x4_0000 == a * 0x1000 + b * 64 + c
    ensures Feed(Octet, State(0, 0, v), [ToAlphabet(a), ToAlphabet(b), ToAlphabet(c)]) == Some((State(0, 3, w), []))
  {
    var s, a', b', c' := State(0, 0, v), ToAlphabet(a), ToAlphabet(b), ToAlphabet(c);
    var v2 := TwoChars(v, a, b);
    AlphabetRoundTrip(c);
    w := (v2 * 64 + c) % TWO_32;
    ShiftIn(v2, 0x1000, 0x4000, a * 64 + b, c);
    assert [a', b'] + [c'] == [a', b', c'];
    Extend(s, [a', b'], c', State(0, 2, v2), []);
  }

  /** A whole group comes back as its three octets. */
  lemma FourChars(v: nat, a: nat, b: nat, c: nat, d: nat) returns (w: nat)
    requires v < TWO_32 && a < 64 && b < 64 && c < 64 && d < 64
    ensures w < TWO_32
    ensures var x := a * 0x4_0000 + b * 0x1000 + c * 64 + d;
      Feed(Octet, State(0, 0, v), [ToAlphabet(a), ToAlphabet(b), ToAlphabet(c), ToAlphabet(d)])
        == Some((State(0, 0, w), [x / 0x1_0000, x / 0x100 % 256, x % 256]))
  {
    var s, a', b', c', d' := State(0, 0, v), ToAlphabet(a), ToAlphabet(b), ToAlphabet(c), ToAlphabet(d);
    var v3 := ThreeChars(v, a, b, c);
    AlphabetRoundTrip(d);
    w := (v3 * 64 + d) % TWO_32;
    var x := a * 0x4_0000 + b * 0x1000 + c * 64 + d;
    ShiftIn(v3, 0x4_0000, 0x100, a * 0x1000 + b * 64 + c, d);
    LowOctets(w, x);
    var out := [w / 0x1_0000 % 256, w / 0x100 % 256, w % 256];
    assert [] + out == out;
    assert [a', b', c'] + [d'] == [a', b', c', d'];
    Extend(s, [a', b', c'], d', State(0, 3, v3), []);
  }

  lemma GroupParts(a: byte, b: byte, c: byte)
    ensures var x := Group(a, b, c);
      && x / 0x1_0000 == a && x / 0x100 % 256 == b && x % 256 == c
      && x / 0x4_0000 * 0x4_0000 + x / 0x1000 % 64 * 0x1000 + x / 0x40 % 64 * 64 + x % 64 == x
  {
    var x := Group(a, b, c);
    DivModUnique(x, 0x1_0000, a, b * 0x100 + c);
    DivModUnique(x, 0x100, a * 0x100 + b, c);
    DivModUnique(a * 0x100 + b, 0x100, a, b);
    SixBits(x);
  }

  lemma SixBits(x: nat)
    ensures x / 0x4_0000 * 0x4_0000 + x / 0x1000 % 64 * 0x1000 + x / 0x40 % 64 * 64 + x % 64 == x
  {
    var p, q := x / 0x40, x / 0x40 / 0x40;
    var r := q / 0x40;
    DivModUnique(x, 0x1000, q, p % 64 * 64 + x % 64);
    DivModUnique(x, 0x4_0000, r, q % 64 * 0x1000 + p % 64 * 64 + x % 64);
  }

  lemma OneLeftBits(a: byte, w: nat)
    requires w % 0x1000 == a / 4 * 64 + a % 4 * 16
    ensures Group(a, 0, 0) / 0x4_0000 == a / 4 && Group(a, 0, 0) / 0x1000 % 64 == a % 4 * 16
    ensures w % 16 == 0 && w / 16 % 256 == a
  {
    var x, k := Group(a, 0, 0), w / 0x1000;
    DivModUnique(x, 0x4_0000, a / 4, a % 4 * 0x1_0000);
    DivModUnique(x, 0x1000, a * 16, 0);
    DivModUnique(a * 16, 64, a / 4, a % 4 * 16);
    DivModUnique(w, 16, 256 * k + a, 0);
    DivModUnique(256 * k + a, 256, k, a);
  }

  /** One octet left over: two characters and two paddings. */
  lemma OneLeft(v: nat, a: byte)
    requires v < TWO_32
    ensures var r := Feed(Octet, State(0, 0, v), Encode([a]));
      r.Some? && r.value.1 == [] && End(r.value.0) == Some([a])
  {
    var s, p, q := State(0, 0, v), a / 4, a % 4 * 16;
    var w := TwoChars(v, p, q);
    OneLeftBits(a, w);
    var two := [ToAlphabet(p), ToAlphabet(q)];
    assert Quad(Group(a, 0, 0))[..2] == two;
    assert two + [EQUALS] + [EQUALS] == Encode([a]);
    PadTwice(s, two, w);
  }

  lemma PadTwice(s: State, two: seq<byte>, w: nat)
    requires Feed(Octet, s, two) == Some((State(0, 2, w), []))
    ensures Feed(Octet, s, two + [EQUALS] + [EQUALS]) == Some((State(2, 2, w), []))
  {
    var none: seq<byte> := [];
    assert none + none == none;
    Extend(s, two, EQUALS, State(0, 2, w), none);
    Extend(s, two + [EQUALS], EQUALS, State(1, 2, w), []);
  }

  lemma TwoLeftBits(a: byte, b: byte, w: nat)
    requires w % 0x4_0000 == a * 0x400 + b * 4
    ensures w % 4 == 0 && w / 4 % 256 == b && w / 0x400 % 256 == a
  {
    var k := w / 0x4_0000;
    DivModUnique(w, 4, 0x1_0000 * k + a * 0x100 + b, 0);
    DivModUnique(w, 0x400, 0x100 * k + a, b * 4);
    DivModUnique(0x1_0000 * k + a * 0x100 + b, 256, 0x100 * k + a, b);
    DivModUnique(0x100 * k + a, 256, k, a);
  }

  /** Two octets left over: three characters and one padding. */
  lemma TwoLeft(v: nat, a: byte, b: byte)
    requires v < TWO_32
    ensures var r := Feed(Octet, State(0, 0, v), Encode([a, b]));
      r.Some? && r.value.1 == [] && End(r.value.0) == Some([a, b])
  {
    var x := Group(a, b, 0);
    var s, p, q, t := State(0, 0, v), x / 0x4_0000, x / 0x1000 % 64, x / 0x40 % 64;
    TwoLeftGroup(a, b);
    var w := ThreeChars(v, p, q, t);
    TwoLeftBits(a, b, w);
    var three := [ToAlphabet(p), ToAlphabet(q), ToAlphabet(t)];
    assert Quad(x)[..3] == three;
    assert three + [EQUALS] == Encode([a, b]);
    PadOnce(s, three, w);
  }

  lemma PadOnce(s: State, three: seq<byte>, w: nat)
    requires Feed(Octet, s, three) == Some((State(0, 3, w), []))
    ensures Feed(Octet, s, three + [EQUALS]) == Some((State(1, 3, w), []))
  {
    var none: seq<byte> := [];
    assert none + none == none;
    Extend(s, three, EQUALS, State(0, 3, w), none);
  }

  lemma TwoLeftGroup(a: byte, b: byte)
    ensures var x := Group(a, b, 0);
      x / 0x4_0000 * 0x1000 + x / 0x1000 % 64 * 64 + x / 0x40 % 64 == a * 0x400 + b * 4
  {
    var x := Group(a, b, 0);
    var p, q, r := x / 0x4_0000, x / 0x1000 % 64, x / 0x40 % 64;
    DivModUnique(x, 64, a * 0x400 + b * 4, 0);
    SixBits(x);
    Sixtyfold(p, q, r, a * 0x400 + b * 4, x);
  }

  lemma Sixtyfold(p: nat, q: nat, r: nat, y: nat, x: nat)
    requires p * 0x4_0000 + q * 0x1000 + r * 64 == x == y * 64
    ensures p * 0x1000 + q * 64 + r == y
  {
  }

  lemma QuadFeed(v: nat, a: byte, b: byte, c: byte) returns (w: nat)
    requires v < TWO_32
    ensures w < TWO_32
    ensures Feed(Octet, State(0, 0, v), Quad(Group(a, b, c))) == Some((State(0, 0, w), [a, b, c]))
  {
    var x := Group(a, b, c);
    GroupParts(a, b, c);
    w := FourChars(v, x / 0x4_0000, x / 0x1000 % 64, x / 0x40 % 64, x % 64);
  }

  lemma FirstThree(data: seq<byte>, more: seq<byte>, last: seq<byte>)
    requires |data| >= 3 && more + last == data[3..]
    ensures [data[0], data[1], data[2]] + more + last == data
  {
    var three := [data[0], data[1], data[2]];
    assert three + (more + last) == three + more + last;
    assert three + data[3..] == data;
  }

  lemma {:induction false} FeedEncode(data: seq<byte>, v: nat)
    requires v < TWO_32
    ensures var r := Feed(Octet, State(0, 0, v), Encode(data));
      r.Some? && End(r.value.0).Some? && r.value.1 + End(r.value.0).value == data
    decreases |data|
  {
    if |data| >= 3 {
      var w := QuadFeed(v, data[0], data[1], data[2]);
      FeedEncode(data[3..], w);
      FeedConcat(Octet, State(0, 0, v), Quad(Group(data[0], data[1], data[2])), Encode(data[3..]));
      var more := Feed(Octet, State(0, 0, w), Encode(data[3..])).value;
      FirstThree(data, more.1, End(more.0).value);
    } else if |data| == 0 {
      assert Encode(data) == [];
    } else if |data| == 1 {
      assert data == [data[0]];
      OneLeft(v, data[0]);
    } else {
      assert data == [data[0], data[1]];
      TwoLeft(v, data[0], data[1]);
    }
  }

  /** Decoding what was encoded gives every octet string back. */
  lemma EncodeRoundTrip(data: seq<byte>)
    ensures Decode(Encode(data)) == Some(data)
  {
    FeedEncode(data, 0);
  }

  // ------------------------------------------------------------- output size

  function AlphabetCount(input: seq<byte>): nat
  {
    if input == [] then 0 else (if AlphabetValue(input[0]) >= 0 then 1 else 0) + AlphabetCount(input[1..])
  }

  /** The exact size of the output: three octets for each group of four alphabet
      characters, counting those carried over from before. */
  lemma {:induction false} FeedSize(s: State, input: seq<byte>)
    requires s.nChars < 4
    ensures var r := Feed(Octet, s, input);
      r.Some? ==> r.value.0.nChars < 4 && |r.value.1| == 3 * ((s.nChars + AlphabetCount(input)) / 4)
    decreases |input|
  {
    if input != [] {
      var first := Octet(s, input[0]);
      if first.Some? {
        FeedSize(first.value.0, input[1..]);
      }
    }
  }

  lemma {:induction false} AlphabetCountBound(input: seq<byte>)
    ensures AlphabetCount(input) <= |input|
  {
    if input != [] {
      AlphabetCountBound(input[1..]);
    }
  }

  /** Decoding never makes a text longer. */
  lemma DecodeShrinks(input: seq<byte>)
    ensures Decode(input).Some? ==> |Decode(input).value| <= |input|
  {
    FeedSize(START, input);
    AlphabetCountBound(input);
    if Decode(input).Some? {
      PaddingCounts(START, input);
    }
  }

  /** Characters still pending at the end leave room for the octets they give. */
  lemma {:induction false} PaddingCounts(s: State, input: seq<byte>)
    requires s.nChars < 4
    ensures var r := Feed(Octet, s, input);
      r.Some? ==> |r.value.1| + r.value.0.nChars <= s.nChars + |input|
    decreases |input|
  {
    if input != [] {
      var first := Octet(s, input[0]);
      if first.Some? {
        PaddingCounts(first.value.0, input[1..]);
      }
    }
  }
}
