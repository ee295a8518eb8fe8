/** The buffer of 512 octets through which the mail parser decodes base64 content, 682
    characters at a time, and a mail that overruns it. */
module MailPieces {
  import opened Bytes
  import opened Stream
  import Base64
  import opened MailParser
  import opened MailText
  import WordBuffer

  const BUFFER: nat := 512

  /** A piece finds room in the buffer exactly when fewer than 684 letters are pending; a
      full piece of letters after two or three that are left over exceeds that. */
  lemma PieceFitsIff(s: Base64.State, piece: seq<byte>)
    requires s.nChars < 4
    ensures WordBuffer.PieceFits(s, piece, BUFFER) <==> s.nChars + WordBuffer.Letters(s, piece) < 684
  {
    WordBuffer.PieceFitsIff(s, piece, BUFFER);
  }

  /** The parser is about to decode base64 content from its start. */
  ghost predicate AtContent<A>(fed: Option<(Mail<A>, seq<byte>)>)
  {
    && fed.Some? && fed.value.1 == [] && fed.value.0.phase.Content? && fed.value.0.encoding.InBase64?
    && fed.value.0.base64 == Base64.START
  }

  /** The lines of a mail that is accepted up to its content, which is in base64. */
  ghost predicate Accepted<A>(env: Env<A>, lines: seq<Line>)
  {
    && LinesOk(lines) && OnceEach(lines, {}) && Addressed(lines) && AllAddresses(env, lines).Some?
    && EncodingOfLines(lines, Raw).InBase64?
  }

  lemma HeadIsRead<A>(env: Env<A>, lines: seq<Line>)
    requires Accepted(env, lines)
    ensures AtContent(Feed(Octet<A>, Start(env), Text(lines, [])))
  {
    LinesDone(Start(env), lines, [LF] + []);
    AddressedKinds(lines);
    var m := Behind(Start(env), lines, AllAddresses(env, lines).value);
    assert m.had == Kinds(lines);
    HeadersDone(m, []);
  }

  // -------------------------------------------------------------- the overrun

  /** 1364 letters as the content: the first piece of 682 gives 510 octets and leaves two
      letters, with which the second gives 513 for 512. */
  lemma ContentOverruns<A>(env: Env<A>, lines: seq<Line>, letters: seq<byte>)
    requires Accepted(env, lines) && |letters| == 2 * BASE64_PIECE && WordBuffer.AllLetters(letters)
    ensures var m := Feed(Octet<A>, Start(env), Text(lines, []));
      && m.Some? && m.value.0.phase.Content? && m.value.0.encoding.InBase64?
      && WordBuffer.PieceFits(m.value.0.base64, letters[..BASE64_PIECE], BUFFER)
      && (var first := Feed(Base64.Octet, m.value.0.base64, letters[..BASE64_PIECE]);
          first.Some? && !WordBuffer.PieceFits(first.value.0, letters[BASE64_PIECE..], BUFFER))
  {
    HeadIsRead(env, lines);
    TwoPieces(Base64.START, letters);
  }

  lemma TwoPieces(s: Base64.State, letters: seq<byte>)
    requires s.nPadding == 0 && s.nChars == 0 && |letters| == 2 * BASE64_PIECE && WordBuffer.AllLetters(letters)
    ensures WordBuffer.PieceFits(s, letters[..BASE64_PIECE], BUFFER)
    ensures var first := Feed(Base64.Octet, s, letters[..BASE64_PIECE]);
      first.Some? && !WordBuffer.PieceFits(first.value.0, letters[BASE64_PIECE..], BUFFER)
  {
    var a, b := letters[..BASE64_PIECE], letters[BASE64_PIECE..];
    FirstFits(s, a);
    var t := Feed(Base64.Octet, s, a).value.0;
    SecondOverruns(t, b);
  }

  lemma FirstFits(s: Base64.State, piece: seq<byte>)
    requires s.nPadding == 0 && s.nChars == 0 && |piece| == BASE64_PIECE && WordBuffer.AllLetters(piece)
    ensures WordBuffer.PieceFits(s, piece, BUFFER)
    ensures var r := Feed(Base64.Octet, s, piece); r.Some? && r.value.0.nPadding == 0 && r.value.0.nChars == 2
  {
    WordBuffer.LettersFeed(s, piece);
    PieceFitsIff(s, piece);
  }

  lemma SecondOverruns(s: Base64.State, piece: seq<byte>)
    requires s.nPadding == 0 && s.nChars == 2 && |piece| == BASE64_PIECE && WordBuffer.AllLetters(piece)
    ensures !WordBuffer.PieceFits(s, piece, BUFFER)
  {
    WordBuffer.LettersFeed(s, piece);
    PieceFitsIff(s, piece);
  }
}
