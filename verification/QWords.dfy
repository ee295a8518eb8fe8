/** What encoded words in a header mean (sections 2 and 4 of RFC 2047), stated on their text:
    words of both encodings and both character sets, in any letter case, and markers that
    start no word. */
module QWords {
  import opened Bytes
  import opened EncodedWords
  import Base64
  import QuotedPrintable

  const UNDERSCORE: byte := 95

  /** The same letter, or its capital. */
  predicate SameLetter(ch: byte, letter: byte)
  {
    ch == letter || (97 <= letter <= 122 && ch == letter - 32)
  }

  /** A name in any letter case. */
  predicate Spelled(s: seq<byte>, name: string)
  {
    |s| == |name| && forall i :: 0 <= i < |s| ==> SameLetter(s[i], Ascii(name)[i])
  }

  predicate KnownCharset(charset: seq<byte>)
  {
    Spelled(charset, "us-ascii") || Spelled(charset, "utf-8")
  }

  /** A body that ends where its word does. */
  predicate Compact(body: seq<byte>)
  {
    SPACE !in body && QUESTION !in body
  }

  /** What follows "=?" in a word. */
  function FrameOf(charset: seq<byte>, letter: byte, body: seq<byte>): seq<byte>
  {
    charset + [QUESTION, letter, QUESTION] + body + [QUESTION, EQUALS]
  }

  /** An octet of a Q body stands for itself, an underscore for a space, an escape for its
      octet, and a soft break for nothing. */
  function QValue(token: QuotedPrintable.Token): seq<byte>
    requires QuotedPrintable.Proper(token)
  {
    match token
    case Raw(ch) => if ch == UNDERSCORE then [SPACE] else [ch]
    case Escaped(high, low) => [QuotedPrintable.HexValue(high) * 16 + QuotedPrintable.HexValue(low)]
    case Break(_, _) => []
  }

  function QValues(tokens: seq<QuotedPrintable.Token>): seq<byte>
    requires QuotedPrintable.AllProper(tokens)
  {
    if tokens == [] then [] else QValue(tokens[0]) + QValues(tokens[1..])
  }

  /** The digits of an escape, in either letter case. */
  function HexDigit(value: nat, upper: bool): byte
    requires value < 16
  {
    if value < 10 then 48 + value else if upper then 55 + value else 87 + value
  }

  lemma HexDigits(value: byte, upper: bool, upper': bool)
    ensures var token := QuotedPrintable.Escaped(HexDigit(value / 16, upper), HexDigit(value % 16, upper'));
      QuotedPrintable.Proper(token) && QValue(token) == [value]
  {
  }

  lemma {:induction false} QValuesAre(tokens: seq<QuotedPrintable.Token>)
    requires QuotedPrintable.AllProper(tokens)
    ensures QuotedPrintable.Values(QuotedPrintable.Start(true), tokens) == QValues(tokens)
  {
    if tokens != [] {
      QValuesAre(tokens[1..]);
    }
  }

  // ---------------------------------------------------------------- one word

  lemma LettersLook(s: seq<byte>, name: string, rest: seq<byte>, word: seq<byte>)
    requires Spelled(s, name) && word == Ascii(name) + [QUESTION]
    requires forall i :: 0 <= i < |name| ==> Ascii(name)[i] !in {65, 66, 67, 68} && !(65 <= Ascii(name)[i] <= 90)
    ensures LookingAt(s + [QUESTION] + rest, word)
  {
    var text := s + [QUESTION] + rest;
    forall i | 0 <= i < |word| ensures Lower(text[i]) == word[i] {
      if i < |s| {
        assert text[i] == s[i] && SameLetter(s[i], Ascii(name)[i]);
      }
    }
  }

  lemma CharsetNames()
    ensures US_ASCII == Ascii("us-ascii") + [QUESTION] && UTF_8 == Ascii("utf-8") + [QUESTION]
    ensures forall i :: 0 <= i < 8 ==> !(65 <= Ascii("us-ascii")[i] <= 90)
    ensures forall i :: 0 <= i < 5 ==> !(65 <= Ascii("utf-8")[i] <= 90)
  {
  }

  lemma CharsetIsRead(charset: seq<byte>, rest: seq<byte>)
    requires KnownCharset(charset)
    ensures Charset(charset + [QUESTION] + rest) == |charset| + 1
  {
    CharsetNames();
    var s := charset + [QUESTION] + rest;
    if Spelled(charset, "us-ascii") {
      LettersLook(charset, "us-ascii", rest, US_ASCII);
    } else {
      LettersLook(charset, "utf-8", rest, UTF_8);
      assert SameLetter(charset[1], Ascii("utf-8")[1]) && s[1] == charset[1];
      assert Lower(s[1]) == 116 && US_ASCII[1] == 115;
      assert !LookingAt(s, US_ASCII);
    }
  }

  lemma LetterIsRead(letter: byte, rest: seq<byte>)
    requires SameLetter(letter, 113) || SameLetter(letter, 98)
    ensures LookingAt([letter, QUESTION] + rest, Q) <==> SameLetter(letter, 113)
    ensures LookingAt([letter, QUESTION] + rest, B) <==> SameLetter(letter, 98)
  {
    var s := [letter, QUESTION] + rest;
    assert s[0] == letter && s[1] == QUESTION;
  }

  lemma HeadIsRead(charset: seq<byte>, letter: byte, rest: seq<byte>)
    requires KnownCharset(charset) && (SameLetter(letter, 113) || SameLetter(letter, 98))
    ensures var s := charset + [QUESTION, letter, QUESTION] + rest;
      Head(s) == Some((|charset| + 3, SameLetter(letter, 113))) && s[|charset| + 3..] == rest
  {
    var s := charset + [QUESTION, letter, QUESTION] + rest;
    var tail := [letter, QUESTION] + rest;
    assert s == charset + [QUESTION] + tail;
    CharsetIsRead(charset, tail);
    LetterIsRead(letter, rest);
    assert s[|charset| + 1..] == tail;
  }

  lemma EndIsFound(body: seq<byte>, rest: seq<byte>)
    requires QUESTION !in body
    ensures Find(body + [QUESTION, EQUALS] + rest, QUESTION, EQUALS) == Some(|body|)
    ensures (body + [QUESTION, EQUALS] + rest)[..|body|] == body
  {
    var s := body + [QUESTION, EQUALS] + rest;
    assert MatchAt(s, |body|, QUESTION, EQUALS);
    forall j: nat | j < |body| ensures !MatchAt(s, j, QUESTION, EQUALS) { assert s[j] == body[j]; }
  }

  /** The text of a word is read to its end, and gives what its body decodes to. */
  lemma FrameIsRead(charset: seq<byte>, letter: byte, body: seq<byte>, value: seq<byte>, rest: seq<byte>)
    requires KnownCharset(charset) && Compact(body) && (SameLetter(letter, 113) || SameLetter(letter, 98))
    requires if SameLetter(letter, 113) then QuotedPrintable.Decode(true, body) == Some(value)
             else Base64.Decode(body) == Some(value)
    ensures Word(FrameOf(charset, letter, body) + rest) == Some((value, |FrameOf(charset, letter, body)|))
  {
    var s := FrameOf(charset, letter, body) + rest;
    var text := body + [QUESTION, EQUALS] + rest;
    assert s == charset + [QUESTION, letter, QUESTION] + text;
    HeadIsRead(charset, letter, text);
    EndIsFound(body, rest);
    BodyIsRead(SameLetter(letter, 113), body, value, rest);
  }

  lemma BodyIsRead(quoted: bool, body: seq<byte>, value: seq<byte>, rest: seq<byte>)
    requires Compact(body)
    requires if quoted then QuotedPrintable.Decode(true, body) == Some(value) else Base64.Decode(body) == Some(value)
    ensures Body(body + [QUESTION, EQUALS] + rest, quoted) == Some((value, |body| + 2))
  {
    EndIsFound(body, rest);
  }

  // ------------------------------------------------------------ in a header

  /** What the rest of a header decodes to, after a word that ended with "?=". */
  ghost function AfterWord(rest: seq<byte>): seq<byte>
  {
    NextTurnShrinks();
    Words(NextTurn, Some(EQUALS), rest, true)
  }

  /** What it decodes to after some other text. */
  ghost function AfterText(prev: Option<byte>, rest: seq<byte>): seq<byte>
  {
    NextTurnShrinks();
    Words(NextTurn, prev, rest, false)
  }

  lemma MarkerIsFound(lead: seq<byte>, tail: seq<byte>)
    requires NoMarker(lead)
    ensures var s := lead + [EQUALS, QUESTION] + tail;
      && Find(s, EQUALS, QUESTION) == Some(|lead|) && s[..|lead|] == lead && s[|lead| + 2..] == tail
  {
    var s := lead + [EQUALS, QUESTION] + tail;
    assert MatchAt(s, |lead|, EQUALS, QUESTION);
    forall j: nat | j < |lead| ensures !MatchAt(s, j, EQUALS, QUESTION) {
      assert !MarkerAt(lead, j);
    }
  }

  /** A word may stand at the start of a header or behind a space. */
  predicate MayStart(prev: Option<byte>, lead: seq<byte>)
  {
    if lead == [] then prev.None? || prev.value == SPACE else lead[|lead| - 1] == SPACE
  }

  lemma TurnIs(read: Reader, prev: Option<byte>, lead: seq<byte>, tail: seq<byte>, hadWord: bool)
    requires NoMarker(lead)
    ensures var s := lead + [EQUALS, QUESTION] + tail;
      TurnBy(read, prev, s, hadWord) ==
        Some(MakeTurn(s, |lead|, hadWord, if MayStart(prev, lead) then read(tail) else None))
  {
    MarkerIsFound(lead, tail);
    var s := lead + [EQUALS, QUESTION] + tail;
    assert lead != [] ==> s[|lead| - 1] == lead[|lead| - 1];
  }

  /** Decoding goes on behind a turn. */
  lemma Onward(turn: Turner, prev: Option<byte>, s: seq<byte>, hadWord: bool, t: Turn, last: byte, rest: seq<byte>)
    requires Shrinking(turn) && turn(prev, s, hadWord) == Some(t)
    requires 0 < t.used <= |s| && s[t.used - 1] == last && s[t.used..] == rest
    ensures Words(turn, prev, s, hadWord) == t.text + Words(turn, Some(last), rest, t.word)
  {
  }

  /** A single space between two words is dropped; any other text is kept. */
  function Between(lead: seq<byte>, hadWord: bool): seq<byte>
  {
    if hadWord && lead == [SPACE] then [] else lead
  }

  lemma WordInHeader(prev: Option<byte>, lead: seq<byte>, frame: seq<byte>, value: seq<byte>, rest: seq<byte>,
                     hadWord: bool)
    requires NoMarker(lead) && MayStart(prev, lead) && Shrinking(NextTurn)
    requires frame != [] && frame[|frame| - 1] == EQUALS && Word(frame + rest) == Some((value, |frame|))
    ensures Words(NextTurn, prev, lead + [EQUALS, QUESTION] + (frame + rest), hadWord)
         == Between(lead, hadWord) + value + AfterWord(rest)
  {
    WordTurnIs(prev, lead, frame, value, rest, hadWord);
    WordGoesOn(NextTurn, prev, lead, frame, Between(lead, hadWord) + value, rest, hadWord);
  }

  lemma WordGoesOn(turn: Turner, prev: Option<byte>, lead: seq<byte>, frame: seq<byte>, text: seq<byte>,
                   rest: seq<byte>, hadWord: bool)
    requires Shrinking(turn) && frame != [] && frame[|frame| - 1] == EQUALS
    requires turn(prev, lead + [EQUALS, QUESTION] + (frame + rest), hadWord)
          == Some(Turn(text, |lead| + 2 + |frame|, true))
    ensures Words(turn, prev, lead + [EQUALS, QUESTION] + (frame + rest), hadWord)
         == text + Words(turn, Some(EQUALS), rest, true)
  {
    var s := lead + [EQUALS, QUESTION] + (frame + rest);
    var used := |lead| + 2 + |frame|;
    assert s[used..] == rest && s[used - 1] == frame[|frame| - 1];
    Onward(turn, prev, s, hadWord, Turn(text, used, true), EQUALS, rest);
  }

  lemma WordTurnIs(prev: Option<byte>, lead: seq<byte>, frame: seq<byte>, value: seq<byte>, rest: seq<byte>, hadWord: bool)
    requires NoMarker(lead) && MayStart(prev, lead) && Word(frame + rest) == Some((value, |frame|))
    ensures NextTurn(prev, lead + [EQUALS, QUESTION] + (frame + rest), hadWord)
         == Some(Turn(Between(lead, hadWord) + value, |lead| + 2 + |frame|, true))
  {
    WordTurnBy(Word, prev, lead, frame, value, rest, hadWord);
  }

  lemma WordTurnBy(read: Reader, prev: Option<byte>, lead: seq<byte>, frame: seq<byte>, value: seq<byte>,
                   rest: seq<byte>, hadWord: bool)
    requires NoMarker(lead) && MayStart(prev, lead) && read(frame + rest) == Some((value, |frame|))
    ensures TurnBy(read, prev, lead + [EQUALS, QUESTION] + (frame + rest), hadWord)
         == Some(Turn(Between(lead, hadWord) + value, |lead| + 2 + |frame|, true))
  {
    var s := lead + [EQUALS, QUESTION] + (frame + rest);
    TurnIs(read, prev, lead, frame + rest, hadWord);
    StartsWith(lead, frame + rest);
    WordTurn(s, lead, hadWord, value, |frame|);
  }

  lemma StartsWith(lead: seq<byte>, tail: seq<byte>)
    ensures (lead + [EQUALS, QUESTION] + tail)[..|lead|] == lead
  {
  }

  lemma WordTurn(s: seq<byte>, lead: seq<byte>, hadWord: bool, value: seq<byte>, used: nat)
    requires |lead| + 2 <= |s| && s[..|lead|] == lead
    ensures MakeTurn(s, |lead|, hadWord, Some((value, used)))
         == Turn(Between(lead, hadWord) + value, |lead| + 2 + used, true)
  {
    assert |lead| == 1 ==> lead == [s[0]];
  }

  /** A Q word of either character set, in any letter case, decodes to what its tokens stand
      for, with a space for each underscore, and decoding goes on behind it. */
  lemma QWordDecodes(prev: Option<byte>, lead: seq<byte>, charset: seq<byte>, q: byte,
                     tokens: seq<QuotedPrintable.Token>, rest: seq<byte>, hadWord: bool)
    requires NoMarker(lead) && MayStart(prev, lead) && KnownCharset(charset) && Spelled([q], "q")
    requires QuotedPrintable.AllProper(tokens) && Compact(QuotedPrintable.Text(tokens))
    ensures Shrinking(NextTurn)
    ensures Words(NextTurn, prev,
                  lead + [EQUALS, QUESTION] + (FrameOf(charset, q, QuotedPrintable.Text(tokens)) + rest), hadWord)
         == Between(lead, hadWord) + QValues(tokens) + AfterWord(rest)
  {
    NextTurnShrinks();
    assert Ascii("q")[0] == 113;
    var body := QuotedPrintable.Text(tokens);
    QValuesAre(tokens);
    QuotedPrintable.DecodesTokens(true, body, QValues(tokens));
    FrameIsRead(charset, q, body, QValues(tokens), rest);
    WordInHeader(prev, lead, FrameOf(charset, q, body), QValues(tokens), rest, hadWord);
  }

  /** A B word decodes to what its body does. */
  lemma BWordDecodes(prev: Option<byte>, lead: seq<byte>, charset: seq<byte>, b: byte, body: seq<byte>,
                     rest: seq<byte>, hadWord: bool)
    requires NoMarker(lead) && MayStart(prev, lead) && KnownCharset(charset) && Spelled([b], "b")
    requires Compact(body) && Base64.Decode(body).Some?
    ensures Shrinking(NextTurn)
    ensures Words(NextTurn, prev, lead + [EQUALS, QUESTION] + (FrameOf(charset, b, body) + rest), hadWord)
         == Between(lead, hadWord) + Base64.Decode(body).value + AfterWord(rest)
  {
    NextTurnShrinks();
    assert Ascii("b")[0] == 98;
    FrameIsRead(charset, b, body, Base64.Decode(body).value, rest);
    WordInHeader(prev, lead, FrameOf(charset, b, body), Base64.Decode(body).value, rest, hadWord);
  }

  /** "=?" behind any other octet than a space starts no word and is kept as it is. */
  lemma MarkerIsKept(prev: Option<byte>, lead: seq<byte>, rest: seq<byte>, hadWord: bool)
    requires NoMarker(lead) && !MayStart(prev, lead)
    ensures Shrinking(NextTurn)
    ensures Words(NextTurn, prev, lead + [EQUALS, QUESTION] + rest, hadWord)
         == lead + [EQUALS, QUESTION] + AfterText(Some(QUESTION), rest)
  {
    NextTurnShrinks();
    var s := lead + [EQUALS, QUESTION] + rest;
    TurnIs(Word, prev, lead, rest, hadWord);
    MarkerIsFound(lead, rest);
    var t := Turn(lead + [EQUALS, QUESTION], |lead| + 2, false);
    MarkerTurn(s, lead, hadWord);
    assert s[t.used - 1] == QUESTION;
    Onward(NextTurn, prev, s, hadWord, t, QUESTION, rest);
  }

  lemma MarkerTurn(s: seq<byte>, lead: seq<byte>, hadWord: bool)
    requires |lead| + 2 <= |s| && s[..|lead|] == lead && lead != [SPACE]
    ensures MakeTurn(s, |lead|, hadWord, None) == Turn(lead + [EQUALS, QUESTION], |lead| + 2, false)
  {
    assert |lead| == 1 ==> lead == [s[0]];
    assert lead + [] + [EQUALS, QUESTION] == lead + [EQUALS, QUESTION];
  }

  /** Text without "=?" is kept. */
  lemma TextIsKept(prev: Option<byte>, text: seq<byte>, hadWord: bool)
    requires NoMarker(text)
    ensures Shrinking(NextTurn) && Words(NextTurn, prev, text, hadWord) == text
  {
    NextTurnShrinks();
    var found := Find(text, EQUALS, QUESTION);
    assert found.Some? ==> !MarkerAt(text, found.value);
  }

  /** A whole header: one Q word and text behind it. */
  lemma QHeaderDecodes(charset: seq<byte>, q: byte, tokens: seq<QuotedPrintable.Token>, rest: seq<byte>)
    requires KnownCharset(charset) && Spelled([q], "q")
    requires QuotedPrintable.AllProper(tokens) && Compact(QuotedPrintable.Text(tokens))
    ensures Decode([EQUALS, QUESTION] + (FrameOf(charset, q, QuotedPrintable.Text(tokens)) + rest))
         == QValues(tokens) + AfterWord(rest)
  {
    var tail := FrameOf(charset, q, QuotedPrintable.Text(tokens)) + rest;
    assert [] + [EQUALS, QUESTION] + tail == [EQUALS, QUESTION] + tail;
    assert [] + QValues(tokens) == QValues(tokens);
    QWordDecodes(None, [], charset, q, tokens, rest, false);
  }
}
