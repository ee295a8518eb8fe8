/** What the base64 decoder accepts: characters outside the alphabet are ignored, and what
    is left must be exactly what the encoder writes. */
module Base64Canonical {
  import opened Bytes
  import opened Stream
  import opened Base64

  predicate IsSignificant(ch: byte)
  {
    AlphabetValue(ch) >= 0 || ch == EQUALS
  }

  function Significant(input: seq<byte>): seq<byte>
  {
    if input == [] then []
    else (if IsSignificant(input[0]) then [input[0]] else []) + Significant(input[1..])
  }

  ghost predicate AllSignificant(s: seq<byte>)
  {
    forall i :: 0 <= i < |s| ==> IsSignificant(s[i])
  }

  lemma {:induction false} SignificantIs(input: seq<byte>)
    ensures AllSignificant(Significant(input))
    ensures AllSignificant(input) ==> Significant(input) == input
  {
    if input != [] {
      SignificantIs(input[1..]);
    }
  }

  lemma {:induction false} IgnoresOthers(s: State, input: seq<byte>)
    ensures Feed(Octet, s, input) == Feed(Octet, s, Significant(input))
    decreases |input|
  {
    if input != [] {
      var ch, more := input[0], Significant(input[1..]);
      if IsSignificant(ch) {
        assert Significant(input)[0] == ch && Significant(input)[1..] == more;
        if Octet(s, ch).Some? {
          IgnoresOthers(Octet(s, ch).value.0, input[1..]);
        }
      } else {
        IgnoresOthers(s, input[1..]);
        assert Significant(input) == more;
        assert Octet(s, ch) == Some((s, []));
        var r := Feed(Octet, s, input[1..]);
        if r.Some? {
          assert [] + r.value.1 == r.value.1;
        }
      }
    }
  }

  // -------------------------------------------------------------------- groups

  lemma BackToAlphabet(ch: byte)
    requires AlphabetValue(ch) >= 0
    ensures ToAlphabet(AlphabetValue(ch)) == ch
  {
  }

  function Four(a: nat, b: nat, c: nat, d: nat): nat
  {
    a * 0x4_0000 + b * 0x1000 + c * 64 + d
  }

  lemma FourDigits(a: nat, b: nat, c: nat, d: nat)
    requires a < 64 && b < 64 && c < 64 && d < 64
    ensures var x := Four(a, b, c, d);
      x < 0x100_0000 && x / 0x4_0000 == a && x / 0x1000 % 64 == b && x / 0x40 % 64 == c && x % 64 == d
  {
    var x := Four(a, b, c, d);
    DivModUnique(x, 0x4_0000, a, b * 0x1000 + c * 64 + d);
    DivModUnique(x, 0x1000, a * 64 + b, c * 64 + d);
    DivModUnique(a * 64 + b, 64, a, b);
    DivModUnique(x, 0x40, a * 0x1000 + b * 64 + c, d);
    DivModUnique(a * 0x1000 + b * 64 + c, 64, a * 64 + b, c);
  }

  lemma ThreeOctets(x: nat)
    requires x < 0x100_0000
    ensures Group(x / 0x1_0000, x / 0x100 % 256, x % 256) == x
  {
    var p, q := x / 0x100, x / 0x1_0000;
    DivModUnique(x, 0x1_0000, p / 256, p % 256 * 256 + x % 256);
  }

  /** The octets of four characters are written as those characters. */
  lemma QuadBack(f: seq<byte>)
    requires |f| == 4 && forall i :: 0 <= i < 4 ==> AlphabetValue(f[i]) >= 0
    ensures var x := Four(AlphabetValue(f[0]), AlphabetValue(f[1]), AlphabetValue(f[2]), AlphabetValue(f[3]));
      x < 0x100_0000 && Quad(x) == f && Group(x / 0x1_0000, x / 0x100 % 256, x % 256) == x
  {
    var a, b, c, d := AlphabetValue(f[0]), AlphabetValue(f[1]), AlphabetValue(f[2]), AlphabetValue(f[3]);
    FourDigits(a, b, c, d);
    ThreeOctets(Four(a, b, c, d));
    BackToAlphabet(f[0]);
    BackToAlphabet(f[1]);
    BackToAlphabet(f[2]);
    BackToAlphabet(f[3]);
  }

  lemma EncodeGroup(p: byte, q: byte, r: byte, more: seq<byte>)
    ensures Encode([p, q, r] + more) == Quad(Group(p, q, r)) + Encode(more)
  {
    assert ([p, q, r] + more)[3..] == more;
  }

  // ---------------------------------------------------------------- short ends

  /** Once padding has begun only padding is left. */
  lemma {:induction false} PadRun(k: nat, w: nat, p: nat, g: seq<byte>)
    requires AllSignificant(g) && p <= 2 && (p > 0 || g == [] || g[0] == EQUALS)
    requires Feed(Octet, State(p, k, w), g).Some?
    ensures p + |g| <= 2 && (forall i :: 0 <= i < |g| ==> g[i] == EQUALS)
    ensures Feed(Octet, State(p, k, w), g) == Some((State(p + |g|, k, w), []))
    decreases |g|
  {
    if g != [] {
      assert g[0] == EQUALS by {
        assert IsSignificant(g[0]);
      }
      assert Octet(State(p, k, w), EQUALS).Some?;
      PadRun(k, w, p + 1, g[1..]);
      var none: seq<byte> := [];
      assert none + none == none;
    }
  }

  lemma TwoBits(y: nat, w: nat)
    requires w % 0x1000 == y && w % 16 == 0
    ensures y % 16 == 0 && w / 16 % 256 == y / 16
  {
    var k := w / 0x1000;
    DivModUnique(w, 16, 256 * k + y / 16, y % 16);
    DivModUnique(256 * k + y / 16, 256, k, y / 16);
  }

  lemma ThreeBits(y: nat, w: nat)
    requires w % 0x4_0000 == y && w % 4 == 0
    ensures y % 4 == 0 && w / 0x400 % 256 == y / 0x400 && w / 4 % 256 == y / 4 % 256
  {
    var k := w / 0x4_0000;
    DivModUnique(w, 4, 0x1_0000 * k + y / 4, y % 4);
    DivModUnique(w, 0x400, 0x100 * k + y / 0x400, y % 0x400);
    DivModUnique(0x100 * k + y / 0x400, 256, k, y / 0x400);
    DivModUnique(0x1_0000 * k + y / 4, 256, 0x100 * k + y / 4 / 256, y / 4 % 256);
  }

  /** Two characters and two paddings are what the octet they give is written as. */
  lemma TwoBack(a: nat, b: nat)
    requires a < 64 && b < 64 && (a * 64 + b) % 16 == 0
    ensures (a * 64 + b) / 16 < 256
    ensures Encode([(a * 64 + b) / 16]) == [ToAlphabet(a), ToAlphabet(b), EQUALS, EQUALS]
  {
    var q := (a * 64 + b) / 16;
    TwoSplit(a, b, q);
    var x := Group(q, 0, 0);
    FourDigits(a, b, 0, 0);
    assert Quad(x)[..2] == [ToAlphabet(a), ToAlphabet(b)];
  }

  lemma TwoSplit(a: nat, b: nat, q: nat)
    requires a < 64 && b < 64 && a * 64 + b == 16 * q
    ensures q < 256 && q * 0x1_0000 == Four(a, b, 0, 0)
  {
  }

  lemma ThreeBack(a: nat, b: nat, c: nat)
    requires a < 64 && b < 64 && c < 64 && (a * 0x1000 + b * 64 + c) % 4 == 0
    ensures var y := a * 0x1000 + b * 64 + c;
      y / 0x400 < 256 && Encode([y / 0x400, y / 4 % 256]) == [ToAlphabet(a), ToAlphabet(b), ToAlphabet(c), EQUALS]
  {
    var y := a * 0x1000 + b * 64 + c;
    var x := Group(y / 0x400, y / 4 % 256, 0);
    ThreeSplit(y);
    assert x == Four(a, b, c, 0);
    FourDigits(a, b, c, 0);
    assert Quad(x)[..3] == [ToAlphabet(a), ToAlphabet(b), ToAlphabet(c)];
  }

  lemma ThreeSplit(y: nat)
    requires y % 4 == 0
    ensures y / 0x400 * 256 + y / 4 % 256 == y / 4
  {
    DivModUnique(y, 0x400, y / 4 / 256, y / 4 % 256 * 4);
  }

  predicate Alpha(f: seq<byte>, k: nat)
  {
    k <= |f| && forall i :: 0 <= i < k ==> AlphabetValue(f[i]) >= 0
  }

  ghost predicate Accepts(v: nat, f: seq<byte>)
  {
    var r := Feed(Octet, State(0, 0, v), f);
    r.Some? && End(r.value.0).Some?
  }

  ghost function Given(v: nat, f: seq<byte>): seq<byte>
    requires Accepts(v, f)
  {
    var r := Feed(Octet, State(0, 0, v), f).value;
    r.1 + End(r.0).value
  }

  /** Some characters, fewer than four, and then padding or nothing. */
  lemma CharsThenPads(v: nat, f: seq<byte>, k: nat, w: nat)
    requires k <= |f| && AllSignificant(f) && Accepts(v, f) && (k == |f| || f[k] == EQUALS)
    requires Feed(Octet, State(0, 0, v), f[..k]) == Some((State(0, k, w), []))
    ensures |f| - k <= 2 && (forall i :: k <= i < |f| ==> f[i] == EQUALS)
    ensures End(State(|f| - k, k, w)).Some? && Given(v, f) == End(State(|f| - k, k, w)).value
  {
    var g := f[k..];
    assert f == f[..k] + g;
    FeedConcat(Octet, State(0, 0, v), f[..k], g);
    PadRun(k, w, 0, g);
    forall i | k <= i < |f| ensures f[i] == EQUALS { assert f[i] == g[i - k]; }
    var last := End(State(|f| - k, k, w)).value;
    var none: seq<byte> := [];
    assert none + none == none && none + last == last;
  }

  lemma ShortNone(v: nat, f: seq<byte>)
    requires AllSignificant(f) && Accepts(v, f) && (f == [] || f[0] == EQUALS)
    ensures f == Encode(Given(v, f))
  {
    assert f[..0] == [];
    CharsThenPads(v, f, 0, v);
  }

  lemma ShortOne(v: nat, f: seq<byte>)
    requires v < TWO_32 && AllSignificant(f) && Alpha(f, 1) && |f| >= 1 && (|f| == 1 || f[1] == EQUALS)
    ensures !Accepts(v, f)
  {
    if Accepts(v, f) {
      FeedOne(Octet, State(0, 0, v), f[0]);
      assert f[..1] == [f[0]];
      CharsThenPads(v, f, 1, (v * 64 + AlphabetValue(f[0])) % TWO_32);
    }
  }

  lemma ShortTwo(v: nat, f: seq<byte>)
    requires v < TWO_32 && AllSignificant(f) && Alpha(f, 2) && Accepts(v, f) && (|f| == 2 || f[2] == EQUALS)
    ensures f == Encode(Given(v, f))
  {
    var a, b := AlphabetValue(f[0]), AlphabetValue(f[1]);
    BackToAlphabet(f[0]);
    BackToAlphabet(f[1]);
    var w := TwoChars(v, a, b);
    assert f[..2] == [ToAlphabet(a), ToAlphabet(b)];
    CharsThenPads(v, f, 2, w);
    TwoBits(a * 64 + b, w);
    TwoBack(a, b);
  }

  lemma ShortThree(v: nat, f: seq<byte>)
    requires v < TWO_32 && AllSignificant(f) && Alpha(f, 3) && Accepts(v, f) && (|f| == 3 || f[3] == EQUALS)
    ensures f == Encode(Given(v, f))
  {
    var a, b, c := AlphabetValue(f[0]), AlphabetValue(f[1]), AlphabetValue(f[2]);
    BackToAlphabet(f[0]);
    BackToAlphabet(f[1]);
    BackToAlphabet(f[2]);
    var w := ThreeChars(v, a, b, c);
    assert f[..3] == [ToAlphabet(a), ToAlphabet(b), ToAlphabet(c)];
    CharsThenPads(v, f, 3, w);
    ThreeBits(a * 0x1000 + b * 64 + c, w);
    ThreeBack(a, b, c);
  }

  /** A whole group at the start, and the rest. */
  lemma FirstGroup(v: nat, f: seq<byte>) returns (w: nat, x: nat)
    requires v < TWO_32 && Alpha(f, 4) && Accepts(v, f)
    ensures w < TWO_32 && x < 0x100_0000 && Accepts(w, f[4..]) && Quad(x) == f[..4]
    ensures Group(x / 0x1_0000, x / 0x100 % 256, x % 256) == x
    ensures Given(v, f) == [x / 0x1_0000, x / 0x100 % 256, x % 256] + Given(w, f[4..])
  {
    var head := f[..4];
    var a, b, c, d := AlphabetValue(f[0]), AlphabetValue(f[1]), AlphabetValue(f[2]), AlphabetValue(f[3]);
    QuadBack(head);
    x := Four(a, b, c, d);
    w := FourChars(v, a, b, c, d);
    FourDigits(a, b, c, d);
    assert head == [ToAlphabet(a), ToAlphabet(b), ToAlphabet(c), ToAlphabet(d)];
    assert f == head + f[4..];
    FeedConcat(Octet, State(0, 0, v), head, f[4..]);
    var r := Feed(Octet, State(0, 0, w), f[4..]).value;
    var out := [x / 0x1_0000, x / 0x100 % 256, x % 256];
    assert out + r.1 + End(r.0).value == out + (r.1 + End(r.0).value);
  }

  /** What is accepted is what the encoder writes for what was given. */
  lemma {:induction false} Canonical(v: nat, f: seq<byte>)
    requires v < TWO_32 && AllSignificant(f) && Accepts(v, f)
    ensures f == Encode(Given(v, f))
    decreases |f|
  {
    if Alpha(f, 4) {
      var w, x := FirstGroup(v, f);
      Canonical(w, f[4..]);
      EncodeGroup(x / 0x1_0000, x / 0x100 % 256, x % 256, Given(w, f[4..]));
      assert f == f[..4] + f[4..];
    } else if Alpha(f, 3) {
      ShortThree(v, f);
    } else if Alpha(f, 2) {
      ShortTwo(v, f);
    } else if Alpha(f, 1) {
      ShortOne(v, f);
    } else {
      ShortNone(v, f);
    }
  }

  lemma {:induction false} EncodeSignificant(data: seq<byte>)
    ensures AllSignificant(Encode(data))
  {
    forall v: nat | v < 64 ensures IsSignificant(ToAlphabet(v)) { AlphabetRoundTrip(v); }
    if |data| >= 3 {
      EncodeSignificant(data[3..]);
    }
  }

  /** Decoding gives some octets exactly when the significant characters of the input are
      what those octets are encoded as. */
  lemma DecodesExactly(input: seq<byte>, out: seq<byte>)
    ensures Decode(input) == Some(out) <==> Significant(input) == Encode(out)
  {
    var f := Significant(input);
    IgnoresOthers(START, input);
    SignificantIs(input);
    assert Decode(input) == Decode(f);
    if Decode(input) == Some(out) {
      Canonical(0, f);
    }
    if f == Encode(out) {
      EncodeRoundTrip(out);
    }
  }
}
