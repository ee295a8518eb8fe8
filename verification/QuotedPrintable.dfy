/** Quoted-printable (section 6.7 of RFC 2045) and, with underscores for spaces, the
    Q encoding (section 4.2 of RFC 2047): a five-state streaming decoder. */
module QuotedPrintable {
  import opened Bytes
  import opened Stream

  const TAB: byte := 9
  const LF: byte := 10
  const CR: byte := 13
  const SPACE: byte := 32
  const EQUALS: byte := 61
  const UNDERSCORE: byte := 95

  /** The value of a hexadecimal digit, or -1. */
  function HexValue(ch: byte): (r: int)
    ensures -1 <= r < 16
  {
    if ch <= 57 then (if ch < 48 then -1 else ch - 48)
    else if ch <= 70 then (if ch < 65 then -1 else ch - 65 + 10)
    else if ch <= 102 then (if ch < 97 then -1 else ch - 97 + 10)
    else -1
  }

  datatype Mode = Plain | QuoteStart | SkipSpaces | SoftCr | EscapedOctet

  datatype State = State(mode: Mode, nibble: nat, underscoreIsSpace: bool)

  function Start(underscoreIsSpace: bool): State
  {
    State(Plain, 0, underscoreIsSpace)
  }

  function Output(s: State, ch: byte): byte
  {
    if s.underscoreIsSpace && ch == UNDERSCORE then SPACE else ch
  }

  /** The decoder, octet by octet. */
  function Octet(s: State, ch: byte): Option<(State, seq<byte>)>
  {
    match s.mode
    case Plain =>
      if ch == EQUALS then Some((s.(mode := QuoteStart), [])) else Some((s, [Output(s, ch)]))
    case QuoteStart =>
      if HexValue(ch) >= 0 then Some((s.(mode := EscapedOctet, nibble := HexValue(ch)), []))
      else if ch == SPACE || ch == TAB then Some((s.(mode := SkipSpaces), []))
      else if ch == CR then Some((s.(mode := SoftCr), []))
      else if ch == LF then Some((s.(mode := Plain), []))
      else None
    case SkipSpaces =>
      if ch == SPACE || ch == TAB then Some((s, []))
      else if ch == CR then Some((s.(mode := SoftCr), []))
      else if ch == LF then Some((s.(mode := Plain), []))
      else None
    case SoftCr =>
      if ch == LF then Some((s.(mode := Plain), [])) else None
    case EscapedOctet =>
      if HexValue(ch) < 0 then None
      else Some((s.(mode := Plain), [(s.nibble * 16 + HexValue(ch)) % 256]))
  }

  function End(s: State): bool
  {
    s.mode.Plain?
  }

  function Decode(underscoreIsSpace: bool, input: seq<byte>): Option<seq<byte>>
  {
    match Feed(Octet, Start(underscoreIsSpace), input)
    case None => None
    case Some(r) => if End(r.0) then Some(r.1) else None
  }

  lemma {:induction false} FeedShrinks(s: State, input: seq<byte>)
    ensures var r := Feed(Octet, s, input); r.Some? ==> |r.value.1| <= |input|
    decreases |input|
  {
    if input != [] {
      var first := Octet(s, input[0]);
      if first.Some? {
        FeedShrinks(first.value.0, input[1..]);
      }
    }
  }

  /** Runs of ordinary octets are copied as a whole. */
  function Copied(s: State, input: seq<byte>): (r: seq<byte>)
    ensures |r| == |input|
  {
    seq(|input|, i requires 0 <= i < |input| => Output(s, input[i]))
  }

  lemma {:induction false} FeedCopied(s: State, input: seq<byte>)
    requires s.mode.Plain? && EQUALS !in input
    ensures Feed(Octet, s, input) == Some((s, Copied(s, input)))
    decreases |input|
  {
    if input != [] {
      FeedCopied(s, input[1..]);
      assert Copied(s, input) == [Output(s, input[0])] + Copied(s, input[1..]);
    } else {
      assert Copied(s, input) == [];
    }
  }

  lemma {:induction false} FeedSpaces(s: State, input: seq<byte>)
    requires s.mode.SkipSpaces? && forall i :: 0 <= i < |input| ==> input[i] == SPACE || input[i] == TAB
    ensures Feed(Octet, s, input) == Some((s, []))
    decreases |input|
  {
    if input != [] {
      FeedSpaces(s, input[1..]);
      var none: seq<byte> := [];
      assert none + none == none;
    }
  }

  lemma OneOctet(s: State, input: seq<byte>)
    requires input != []
    ensures Feed(Octet, s, input[..1]) == Octet(s, input[0])
    ensures Octet(s, input[0]).None? ==> Feed(Octet, s, input).None?
  {
    assert input[..1] == [input[0]];
    FeedOne(Octet, s, input[0]);
  }

  /** The decoder as the source has it: each state handles as much of the piece as
      it can, and the loop goes on with the rest. */
  class Decoder {
    var mode: Mode
    var nibble: nat
    const underscoreIsSpace: bool

    function Abs(): State
      reads this
    {
      State(mode, nibble, underscoreIsSpace)
    }

    constructor (underscoreIsSpace: bool)
      ensures Abs() == Start(underscoreIsSpace)
    {
      mode, nibble, this.underscoreIsSpace := Plain, 0, underscoreIsSpace;
    }

    method Restart()
      modifies this
      ensures Abs() == Start(underscoreIsSpace)
    {
      mode, nibble := Plain, 0;
    }

    /** How far the state's handler goes, or nothing if it finds an error. */
    method Handle(input: seq<byte>) returns (processed: Option<nat>, out: seq<byte>)
      requires input != []
      modifies this
      ensures processed.Some? ==>
        && 0 < processed.value <= |input|
        && Feed(Octet, old(Abs()), input[..processed.value]) == Some((Abs(), out))
      ensures processed.None? ==> Feed(Octet, old(Abs()), input).None?
    {
      if mode.Plain? {
        processed, out := HandleOctet(input);
      } else if mode.SkipSpaces? {
        processed, out := HandleSpaces(input);
      } else {
        OneOctet(Abs(), input);
        var ok;
        if mode.QuoteStart? {
          ok := HandleQuoteStart(input[0]);
          out := [];
        } else if mode.SoftCr? {
          ok := HandleSoftCr(input[0]);
          out := [];
        } else {
          ok, out := HandleEscapedOctet(input[0]);
        }
        processed := if ok then Some(1) else None;
      }
    }

    method HandleQuoteStart(ch: byte) returns (ok: bool)
      requires mode.QuoteStart?
      modifies this
      ensures Octet(old(Abs()), ch) == if ok then Some((Abs(), [])) else None
    {
      if HexValue(ch) >= 0 {
        mode, nibble := EscapedOctet, HexValue(ch);
      } else if ch == SPACE || ch == TAB {
        mode := SkipSpaces;
      } else if ch == CR {
        mode := SoftCr;
      } else if ch == LF {
        mode := Plain;
      } else {
        return false;
      }
      return true;
    }

    method HandleSoftCr(ch: byte) returns (ok: bool)
      requires mode.SoftCr?
      modifies this
      ensures Octet(old(Abs()), ch) == if ok then Some((Abs(), [])) else None
    {
      if ch != LF {
        return false;
      }
      mode := Plain;
      return true;
    }

    method HandleEscapedOctet(ch: byte) returns (ok: bool, out: seq<byte>)
      requires mode.EscapedOctet?
      modifies this
      ensures Octet(old(Abs()), ch) == if ok then Some((Abs(), out)) else None
    {
      var value := HexValue(ch);
      if value == -1 {
        return false, [];
      }
      out := [(nibble * 16 + value) % 256];
      mode := Plain;
      return true, out;
    }

    method HandleOctet(input: seq<byte>) returns (processed: Option<nat>, out: seq<byte>)
      requires input != [] && mode.Plain?
      modifies this
      ensures processed.Some? && 0 < processed.value <= |input|
      ensures Feed(Octet, old(Abs()), input[..processed.value]) == Some((Abs(), out))
    {
      ghost var s := Abs();
      var i := 0;
      while i < |input| && input[i] != EQUALS
        invariant i <= |input| && EQUALS !in input[..i]
      {
        i := i + 1;
      }
      FeedCopied(s, input[..i]);
      out := Copied(State(mode, nibble, underscoreIsSpace), input[..i]);
      if i == |input| {
        return Some(i), out;
      }
      assert input[..i + 1] == input[..i] + [EQUALS];
      FeedConcat(Octet, s, input[..i], [EQUALS]);
      FeedOne(Octet, s, EQUALS);
      assert out + [] == out;
      mode := QuoteStart;
      return Some(i + 1), out;
    }

    method HandleSpaces(input: seq<byte>) returns (processed: Option<nat>, out: seq<byte>)
      requires input != [] && mode.SkipSpaces?
      modifies this
      ensures processed.Some? ==>
        && 0 < processed.value <= |input|
        && Feed(Octet, old(Abs()), input[..processed.value]) == Some((Abs(), out))
      ensures processed.None? ==> Feed(Octet, old(Abs()), input).None?
    {
      ghost var s := Abs();
      var skip := 0;
      out := [];
      while skip < |input| && (input[skip] == SPACE || input[skip] == TAB)
        invariant skip <= |input| && forall i :: 0 <= i < skip ==> input[i] == SPACE || input[i] == TAB
      {
        skip := skip + 1;
      }
      FeedSpaces(s, input[..skip]);
      if skip == |input| {
        return Some(skip), out;
      }
      var ch := input[skip];
      assert input[..skip + 1] == input[..skip] + [ch];
      FeedConcat(Octet, s, input[..skip], [ch]);
      FeedOne(Octet, s, ch);
      assert out + out == out;
      if ch == CR {
        mode := SoftCr;
      } else if ch == LF {
        mode := Plain;
      } else {
        assert input == input[..skip + 1] + input[skip + 1..];
        FeedConcat(Octet, s, input[..skip + 1], input[skip + 1..]);
        return None, out;
      }
      return Some(skip + 1), out;
    }

    /** One piece of input. */
    method Push(input: seq<byte>) returns (out: Option<seq<byte>>)
      modifies this
      ensures var r := Feed(Octet, old(Abs()), input);
        && out.Some? == r.Some?
        && (out.Some? ==> r.value == (Abs(), out.value))
    {
      ghost var s := Abs();
      var octets, i := [], 0;
      assert input[..0] == [];
      while i < |input|
        invariant i <= |input|
        invariant Feed(Octet, s, input[..i]) == Some((Abs(), octets))
      {
        ghost var t := Abs();
        assert input == input[..i] + input[i..];
        FeedConcat(Octet, s, input[..i], input[i..]);
        var processed, more := Handle(input[i..]);
        if processed.None? {
          return None;
        }
        var n := processed.value;
        FeedConcat(Octet, s, input[..i], input[i..][..n]);
        assert input[..i + n] == input[..i] + input[i..][..n];
        octets, i := octets + more, i + n;
      }
      assert input[..i] == input;
      return Some(octets);
    }
  }

  // ------------------------------------------------------------- what is accepted

  /** The text of quoted-printable: octets that stand for themselves, escaped octets, and
      soft line breaks, which may have spaces before the end of the line. */
  datatype Token = Raw(ch: byte) | Escaped(high: byte, low: byte) | Break(spaces: seq<byte>, cr: bool)

  predicate Proper(token: Token)
  {
    match token
    case Raw(ch) => ch != EQUALS
    case Escaped(high, low) => HexValue(high) >= 0 && HexValue(low) >= 0
    case Break(spaces, _) => forall i :: 0 <= i < |spaces| ==> spaces[i] == SPACE || spaces[i] == TAB
  }

  function BreakEnd(cr: bool): (r: seq<byte>)
    ensures |r| >= 1
  {
    if cr then [CR, LF] else [LF]
  }

  function TextOf(token: Token): (r: seq<byte>)
    ensures |r| >= 1
  {
    match token
    case Raw(ch) => [ch]
    case Escaped(high, low) => [EQUALS, high, low]
    case Break(spaces, cr) => [EQUALS] + (spaces + BreakEnd(cr))
  }

  function ValueOf(s: State, token: Token): seq<byte>
    requires Proper(token)
  {
    match token
    case Raw(ch) => [Output(s, ch)]
    case Escaped(high, low) => [HexValue(high) * 16 + HexValue(low)]
    case Break(_, _) => []
  }

  ghost predicate AllProper(tokens: seq<Token>)
  {
    forall i :: 0 <= i < |tokens| ==> Proper(tokens[i])
  }

  function Text(tokens: seq<Token>): seq<byte>
  {
    if tokens == [] then [] else TextOf(tokens[0]) + Text(tokens[1..])
  }

  function Values(s: State, tokens: seq<Token>): seq<byte>
    requires AllProper(tokens)
  {
    if tokens == [] then [] else ValueOf(s, tokens[0]) + Values(s, tokens[1..])
  }

  /** A state between two tokens; the nibble no longer matters. */
  ghost predicate Idle(s: State, t: State)
  {
    t.mode.Plain? && t.underscoreIsSpace == s.underscoreIsSpace
  }

  lemma ReadsEscaped(s: State, high: byte, low: byte)
    requires s.mode.Plain? && HexValue(high) >= 0 && HexValue(low) >= 0
    ensures Feed(Octet, s, [EQUALS, high, low]) ==
      Some((s.(nibble := HexValue(high)), [HexValue(high) * 16 + HexValue(low)]))
  {
    var s1 := s.(mode := QuoteStart);
    var s2 := s.(mode := EscapedOctet, nibble := HexValue(high));
    var s3 := s.(nibble := HexValue(high));
    var out := [HexValue(high) * 16 + HexValue(low)];
    assert [EQUALS, high, low] == [EQUALS] + ([high] + [low]);
    FeedOne(Octet, s, EQUALS);
    FeedOne(Octet, s1, high);
    FeedOne(Octet, s2, low);
    assert Octet(s2, low) == Some((s3, out));
    FeedConcat(Octet, s1, [high], [low]);
    FeedConcat(Octet, s, [EQUALS], [high] + [low]);
    assert [] + out == out;
  }

  /** The end of a soft break, after its spaces. */
  lemma ReadsBreakEnd(s: State, cr: bool)
    requires s.mode.QuoteStart? || s.mode.SkipSpaces?
    ensures Feed(Octet, s, BreakEnd(cr)) == Some((s.(mode := Plain), []))
  {
    var none: seq<byte> := [];
    assert none + none == none;
    if cr {
      assert [CR, LF] == [CR] + [LF];
      FeedOne(Octet, s, CR);
      FeedOne(Octet, s.(mode := SoftCr), LF);
      FeedConcat(Octet, s, [CR], [LF]);
    } else {
      FeedOne(Octet, s, LF);
    }
  }

  lemma ReadsSpaces(s: State, spaces: seq<byte>)
    requires s.mode.QuoteStart? && spaces != [] && forall i :: 0 <= i < |spaces| ==> spaces[i] == SPACE || spaces[i] == TAB
    ensures Feed(Octet, s, spaces) == Some((s.(mode := SkipSpaces), []))
  {
    FeedSpaces(s.(mode := SkipSpaces), spaces[1..]);
    var none: seq<byte> := [];
    assert none + none == none;
  }

  lemma ReadsBreak(s: State, spaces: seq<byte>, cr: bool)
    requires s.mode.Plain? && Proper(Break(spaces, cr))
    ensures Feed(Octet, s, TextOf(Break(spaces, cr))) == Some((s, []))
  {
    var s1 := s.(mode := QuoteStart);
    var none: seq<byte> := [];
    assert none + none == none;
    FeedOne(Octet, s, EQUALS);
    FeedConcat(Octet, s, [EQUALS], spaces + BreakEnd(cr));
    if spaces == [] {
      assert spaces + BreakEnd(cr) == BreakEnd(cr);
      ReadsBreakEnd(s1, cr);
    } else {
      ReadsSpaces(s1, spaces);
      FeedConcat(Octet, s1, spaces, BreakEnd(cr));
      ReadsBreakEnd(s.(mode := SkipSpaces), cr);
    }
    assert s.(mode := Plain) == s;
  }

  lemma ReadsToken(s: State, token: Token)
    requires s.mode.Plain? && Proper(token)
    ensures var r := Feed(Octet, s, TextOf(token));
      r.Some? && Idle(s, r.value.0) && r.value.1 == ValueOf(s, token)
  {
    match token
    case Raw(ch) => FeedOne(Octet, s, ch);
    case Escaped(high, low) => ReadsEscaped(s, high, low);
    case Break(spaces, cr) => ReadsBreak(s, spaces, cr);
  }

  lemma {:induction false} ReadsTokens(s: State, tokens: seq<Token>)
    requires s.mode.Plain? && AllProper(tokens)
    ensures var r := Feed(Octet, s, Text(tokens));
      r.Some? && Idle(s, r.value.0) && r.value.1 == Values(s, tokens)
    decreases |tokens|
  {
    if tokens != [] {
      ReadsToken(s, tokens[0]);
      var t := Feed(Octet, s, TextOf(tokens[0])).value.0;
      ReadsTokens(t, tokens[1..]);
      SameValues(s, t, tokens[1..]);
      FeedConcat(Octet, s, TextOf(tokens[0]), Text(tokens[1..]));
    }
  }

  lemma {:induction false} SameValues(s: State, t: State, tokens: seq<Token>)
    requires AllProper(tokens) && s.underscoreIsSpace == t.underscoreIsSpace
    ensures Values(s, tokens) == Values(t, tokens)
  {
    if tokens != [] {
      SameValues(s, t, tokens[1..]);
    }
  }

  // An accepted input can be cut into tokens.

  /** How many spaces come first. */
  function SpaceRun(s: seq<byte>): (n: nat)
    ensures n <= |s| && (forall i :: 0 <= i < n ==> s[i] == SPACE || s[i] == TAB)
    ensures n < |s| ==> s[n] != SPACE && s[n] != TAB
  {
    if s != [] && (s[0] == SPACE || s[0] == TAB) then 1 + SpaceRun(s[1..]) else 0
  }

  ghost predicate Accepted(s: State, input: seq<byte>)
  {
    var r := Feed(Octet, s, input);
    r.Some? && End(r.value.0)
  }

  /** The rest of an accepted input is accepted too. */
  lemma AcceptedRest(s: State, input: seq<byte>, n: nat)
    requires n <= |input| && Accepted(s, input)
    ensures var r := Feed(Octet, s, input[..n]); r.Some? && Accepted(r.value.0, input[n..])
  {
    assert input == input[..n] + input[n..];
    FeedConcat(Octet, s, input[..n], input[n..]);
  }

  lemma NotEnded(s: State, input: seq<byte>)
    requires !s.mode.Plain? && Accepted(s, input)
    ensures input != [] && Octet(s, input[0]).Some?
  {
  }

  /** After the equals sign and some spaces there is the end of a line. */
  lemma AfterSpaces(s: State, input: seq<byte>) returns (cr: bool)
    requires (s.mode.SkipSpaces? || s.mode.QuoteStart?) && Accepted(s, input) && input != []
    requires input[0] != SPACE && input[0] != TAB && HexValue(input[0]) < 0
    ensures BreakEnd(cr) <= input
  {
    NotEnded(s, input);
    cr := input[0] == CR;
    if cr {
      AcceptedRest(s, input, 1);
      assert input[..1] == [CR];
      FeedOne(Octet, s, CR);
      NotEnded(s.(mode := SoftCr), input[1..]);
    }
  }

  lemma FirstEscaped(s: State, input: seq<byte>)
    requires s.mode.QuoteStart? && Accepted(s, input) && input != [] && HexValue(input[0]) >= 0
    ensures |input| >= 2 && HexValue(input[1]) >= 0
  {
    AcceptedRest(s, input, 1);
    assert input[..1] == [input[0]];
    FeedOne(Octet, s, input[0]);
    NotEnded(s.(mode := EscapedOctet, nibble := HexValue(input[0])), input[1..]);
  }

  lemma FirstBreak(s: State, input: seq<byte>) returns (token: Token)
    requires s.mode.QuoteStart? && Accepted(s, input) && input != [] && HexValue(input[0]) < 0
    ensures token.Break? && Proper(token) && token.spaces + BreakEnd(token.cr) <= input
  {
    var n := SpaceRun(input);
    var spaces, rest := input[..n], input[n..];
    if n == 0 {
      var cr := AfterSpaces(s, input);
      token := Break([], cr);
      assert [] + BreakEnd(cr) == BreakEnd(cr);
    } else {
      AcceptedRest(s, input, n);
      ReadsSpaces(s, spaces);
      var t := s.(mode := SkipSpaces);
      NotEnded(t, rest);
      var cr := AfterSpaces(t, rest);
      token := Break(spaces, cr);
      assert input == spaces + rest;
    }
  }

  lemma FirstToken(s: State, input: seq<byte>) returns (token: Token)
    requires s.mode.Plain? && Accepted(s, input) && input != []
    ensures Proper(token) && TextOf(token) <= input
  {
    if input[0] != EQUALS {
      token := Raw(input[0]);
    } else {
      var t, rest := s.(mode := QuoteStart), input[1..];
      AcceptedRest(s, input, 1);
      assert input[..1] == [EQUALS] && input == [EQUALS] + rest;
      FeedOne(Octet, s, EQUALS);
      NotEnded(t, rest);
      if HexValue(rest[0]) >= 0 {
        FirstEscaped(t, rest);
        token := Escaped(rest[0], rest[1]);
      } else {
        token := FirstBreak(t, rest);
      }
    }
  }

  lemma AfterToken(s: State, input: seq<byte>, token: Token) returns (t: State)
    requires s.mode.Plain? && Accepted(s, input) && Proper(token) && TextOf(token) <= input
    ensures t.mode.Plain? && Accepted(t, input[|TextOf(token)|..])
    ensures input == TextOf(token) + input[|TextOf(token)|..]
  {
    var n := |TextOf(token)|;
    assert input[..n] == TextOf(token);
    AcceptedRest(s, input, n);
    ReadsToken(s, token);
    t := Feed(Octet, s, input[..n]).value.0;
  }

  lemma {:induction false} Tokenize(s: State, input: seq<byte>) returns (tokens: seq<Token>)
    requires s.mode.Plain? && Accepted(s, input)
    ensures AllProper(tokens) && Text(tokens) == input
    decreases |input|
  {
    if input == [] {
      tokens := [];
    } else {
      var token := FirstToken(s, input);
      var t := AfterToken(s, input, token);
      var more := Tokenize(t, input[|TextOf(token)|..]);
      tokens := [token] + more;
      assert tokens[1..] == more;
    }
  }

  /** The decoder accepts exactly the texts made of proper tokens, and gives what the
      tokens stand for. */
  lemma DecodesTokens(underscoreIsSpace: bool, input: seq<byte>, out: seq<byte>)
    ensures Decode(underscoreIsSpace, input) == Some(out) <==>
      exists tokens :: AllProper(tokens) && Text(tokens) == input && Values(Start(underscoreIsSpace), tokens) == out
  {
    var s := Start(underscoreIsSpace);
    if Decode(underscoreIsSpace, input) == Some(out) {
      var tokens := Tokenize(s, input);
      ReadsTokens(s, tokens);
    }
    if tokens :| AllProper(tokens) && Text(tokens) == input && Values(s, tokens) == out {
      ReadsTokens(s, tokens);
    }
  }
}
