/** Writing a subject as encoded words, and reading it back. */
module SaveMessage {
  import opened Bytes
  import opened EncodedWords
  import opened TextLines
  import Base64
  import WordBuffer

  /** "=?", "UTF-8?B?" and "?=" */
  const OPEN: seq<byte> := [61, 63]
  const NAME: seq<byte> := [85, 84, 70, 45, 56, 63, 66, 63]
  const CLOSE: seq<byte> := [63, 61]

  const MAX_LINE: nat := 76
  /** 76 less "Subject: " and the frame of a word, in whole groups. */
  const MAX_ENCODED: nat := MAX_LINE - 9 - 10 - 2
  const MAX_CHUNK: nat := MAX_ENCODED / 4 * 3

  function WordText(chunk: seq<byte>): seq<byte>
  {
    OPEN + (NAME + Base64.Encode(chunk) + CLOSE)
  }

  type Text = seq<byte> -> seq<byte>

  /** The pieces of a subject, each written by `text`, with a separator between. */
  function Joined(text: Text, subject: seq<byte>, sep: seq<byte>): seq<byte>
    decreases |subject|
  {
    if |subject| <= MAX_CHUNK then text(subject)
    else text(subject[..MAX_CHUNK]) + sep + Joined(text, subject[MAX_CHUNK..], sep)
  }

  /** What is written: a newline and a space fold the header. */
  function Folded(subject: seq<byte>): seq<byte>
  {
    Joined(WordText, subject, [LF, SPACE])
  }

  /** The header's text once unfolded (section 3.1.1 of RFC 822). */
  function Unfolded(subject: seq<byte>): seq<byte>
  {
    Joined(WordText, subject, [SPACE])
  }

  lemma JoinedStep(text: Text, sep: seq<byte>, subject: seq<byte>, i: nat, n: nat, out: seq<byte>)
    requires i <= |subject| && n == if |subject| - i < MAX_CHUNK then |subject| - i else MAX_CHUNK
    ensures out + Joined(text, subject[i..], sep) ==
      if i + n >= |subject| then out + text(subject[i..i + n])
      else out + text(subject[i..i + n]) + sep + Joined(text, subject[i + n..], sep)
  {
    var rest := subject[i..];
    assert rest[n..] == subject[i + n..];
    if i + n >= |subject| {
      assert rest == subject[i..i + n];
    } else {
      assert rest[..n] == subject[i..i + n];
      var w, more := text(rest[..n]), Joined(text, rest[n..], sep);
      assert out + (w + sep + more) == out + w + sep + more;
    }
  }

  /** The buffer for the base64 of a chunk. */
  const ENCODED_ROOM: nat := (MAX_CHUNK * 4 + 2) / 3

  /** The base64 of a chunk fits the buffer it is put into, and the longest fills it. */
  lemma ChunkFits(chunk: seq<byte>)
    requires |chunk| <= MAX_CHUNK
    ensures |Base64.Encode(chunk)| <= ENCODED_ROOM
    ensures |Base64.Encode(chunk)| == ENCODED_ROOM <==> |chunk| > MAX_CHUNK - 3
  {
    Base64.EncodeSize(chunk);
    RoomFor(|chunk|);
  }

  lemma RoomFor(n: nat)
    requires n <= MAX_CHUNK
    ensures Base64.EncodedSize(n) <= ENCODED_ROOM
    ensures Base64.EncodedSize(n) == ENCODED_ROOM <==> n > MAX_CHUNK - 3
  {
    Base64.EncodedSizeIs(n);
    assert (n + 2) / 3 == 13 <==> n > 36;
  }

  /** write_encoded_words; the assertion on the size of what was encoded is the source's. */
  method WriteEncodedWords(subject: seq<byte>) returns (out: seq<byte>)
    ensures out == Folded(subject)
  {
    out := WriteChunks(subject, WordText);
  }

  ghost predicate Writes(text: Text, chunk: seq<byte>)
  {
    text(chunk) == WordText(chunk)
  }

  method WriteChunk(chunk: seq<byte>, ghost text: Text) returns (word: seq<byte>)
    requires |chunk| <= MAX_CHUNK && forall c {:trigger Writes(text, c)} :: Writes(text, c)
    ensures word == text(chunk)
  {
    assert Writes(text, chunk);
    word := WriteWord(chunk);
  }

  method WriteChunks(subject: seq<byte>, ghost text: Text) returns (out: seq<byte>)
    requires forall c {:trigger Writes(text, c)} :: Writes(text, c)
    ensures out == Joined(text, subject, [LF, SPACE])
  {
    out := [];
    var i := 0;
    ghost var sep := [LF, SPACE];
    assert subject[0..] == subject && [] + Joined(text, subject, sep) == Joined(text, subject, sep);
    while true
      invariant 0 <= i <= |subject|
      invariant Joined(text, subject, sep) == out + Joined(text, subject[i..], sep)
      decreases |subject| - i
    {
      var chunkSize := if |subject| - i < MAX_CHUNK then |subject| - i else MAX_CHUNK;
      var word := WriteChunk(subject[i..i + chunkSize], text);
      JoinedStep(text, sep, subject, i, chunkSize, out);
      out := out + word;
      i := i + chunkSize;
      if i >= |subject| {
        return;
      }
      out := out + [LF, SPACE];
    }
  }

  method WriteWord(chunk: seq<byte>) returns (word: seq<byte>)
    requires |chunk| <= MAX_CHUNK
    ensures word == WordText(chunk)
  {
    var encoded := Base64.EncodeLoop(chunk);
    ChunkFits(chunk);
    assert |encoded| <= ENCODED_ROOM;
    word := OPEN + (NAME + encoded + CLOSE);
  }

  // ------------------------------------------------------------------- lines

  lemma {:induction false} EncodeHasNoNewline(data: seq<byte>)
    ensures LF !in Base64.Encode(data)
  {
    if |data| >= 3 {
      EncodeHasNoNewline(data[3..]);
    }
  }

  lemma EncodedChunk(n: nat)
    requires n <= MAX_CHUNK
    ensures Base64.EncodedSize(n) <= MAX_ENCODED
  {
    Base64.EncodedSizeIs(n);
  }

  lemma WordTextSize(chunk: seq<byte>)
    requires |chunk| <= MAX_CHUNK
    ensures |WordText(chunk)| <= MAX_LINE - 9
  {
    Base64.EncodeSize(chunk);
    EncodedChunk(|chunk|);
  }

  lemma WordTextLine(chunk: seq<byte>)
    ensures LF !in WordText(chunk)
  {
    EncodeHasNoNewline(chunk);
  }

  /** A chunk is written on one line with room for the start of the header. */
  ghost predicate Short(text: Text, chunk: seq<byte>)
  {
    |chunk| <= MAX_CHUNK ==> |text(chunk)| <= MAX_LINE - 9 && LF !in text(chunk)
  }

  lemma {:induction false} JoinedLinesFit(text: Text, subject: seq<byte>, first: seq<byte>)
    requires |first| <= 9 && LF !in first && forall c {:trigger Short(text, c)} :: Short(text, c)
    ensures forall line :: line in Lines(first + Joined(text, subject, [LF, SPACE])) ==> |line| <= MAX_LINE
    decreases |subject|
  {
    if |subject| <= MAX_CHUNK {
      assert Short(text, subject);
      LinesOne(first + text(subject));
    } else {
      var word, more := text(subject[..MAX_CHUNK]), Joined(text, subject[MAX_CHUNK..], [LF, SPACE]);
      assert Short(text, subject[..MAX_CHUNK]);
      JoinedLinesFit(text, subject[MAX_CHUNK..], [SPACE]);
      assert first + (word + [LF, SPACE] + more) == (first + word) + [LF] + ([SPACE] + more);
      LinesSplit(first + word, [SPACE] + more);
    }
  }

  /** Every line of the header stays within the 76 characters of section 2 of RFC
      2047, including the first, which starts with "Subject: ". */
  lemma LinesFit(subject: seq<byte>, first: seq<byte>)
    requires |first| <= 9 && LF !in first
    ensures forall line :: line in Lines(first + Folded(subject)) ==> |line| <= MAX_LINE
  {
    forall c ensures Short(WordText, c) {
      WordTextLine(c);
      if |c| <= MAX_CHUNK {
        WordTextSize(c);
      }
    }
    JoinedLinesFit(WordText, subject, first);
  }

  // -------------------------------------------------------------- round trip

  lemma FindAfter(p: seq<byte>, x: byte, y: byte, tail: seq<byte>)
    requires x !in p
    ensures Find(p + [x, y] + tail, x, y) == Some(|p|)
  {
    var s := p + [x, y] + tail;
    assert MatchAt(s, |p|, x, y);
    forall j: nat | j < |p| ensures !MatchAt(s, j, x, y) { assert s[j] == p[j]; }
  }

  /** "UTF-8?B?" is a known character set and base64. */
  lemma NameIsRead(rest: seq<byte>)
    ensures var s := NAME + rest;
      Charset(s) == 6 && LookingAt(s[6..], B) && !LookingAt(s[6..], Q) && s[8..] == rest
  {
    var s := NAME + rest;
    assert Lower(s[1]) == 116 && US_ASCII[1] == 115;
    assert !LookingAt(s, US_ASCII);
    assert LookingAt(s, UTF_8);
    assert s[6..][0] == 66 && s[6..][1] == 63;
  }

  lemma BodyIsFound(code: seq<byte>, tail: seq<byte>)
    requires QUESTION !in code
    ensures Find(code + CLOSE + tail, QUESTION, EQUALS) == Some(|code|)
    ensures (code + CLOSE + tail)[..|code|] == code
  {
    FindAfter(code, QUESTION, EQUALS, tail);
  }

  /** A written word is read as a word, whatever follows it. */
  lemma WordRoundTrip(chunk: seq<byte>, tail: seq<byte>)
    ensures Word(NAME + Base64.Encode(chunk) + CLOSE + tail)
      == Some((chunk, |NAME + Base64.Encode(chunk) + CLOSE|))
  {
    var code := Base64.Encode(chunk);
    assert NAME + code + CLOSE + tail == NAME + (code + CLOSE + tail);
    NameIsRead(code + CLOSE + tail);
    Base64.EncodePlain(chunk);
    BodyIsFound(code, tail);
    Base64.EncodeRoundTrip(chunk);
  }

  function Lead(later: bool): seq<byte>
  {
    if later then [SPACE] else []
  }

  /** One written word is one turn; the space before it, if it follows another word,
      is dropped. */
  ghost predicate ReadsWord(turn: Turner, text: Text, prev: Option<byte>, later: bool, chunk: seq<byte>, tail: seq<byte>)
  {
    later || prev.None? ==>
      turn(prev, Lead(later) + text(chunk) + tail, later)
      == Some(Turn(chunk, |Lead(later)| + |text(chunk)|, true))
  }

  lemma NextTurnIs(prev: Option<byte>, s: seq<byte>, hadWord: bool, e: nat, w: Option<(seq<byte>, nat)>)
    requires Find(s, EQUALS, QUESTION) == Some(e) && WordAt(Word, prev, s, e) == w
    ensures NextTurn(prev, s, hadWord) == Some(MakeTurn(s, e, hadWord, w))
  {
  }

  lemma FrameFound(later: bool, frame: seq<byte>, tail: seq<byte>)
    ensures var s, e := Lead(later) + (OPEN + frame) + tail, |Lead(later)|;
      Find(s, EQUALS, QUESTION) == Some(e) && s[e + 2..] == frame + tail && s[..e] == Lead(later)
  {
    assert Lead(later) + (OPEN + frame) + tail == Lead(later) + [EQUALS, QUESTION] + (frame + tail);
    FindAfter(Lead(later), EQUALS, QUESTION, frame + tail);
  }

  lemma MakeTurnWord(s: seq<byte>, later: bool, chunk: seq<byte>, n: nat)
    requires var e := |Lead(later)|; e + 2 <= |s| && s[..e] == Lead(later)
    ensures MakeTurn(s, |Lead(later)|, later, Some((chunk, n))) == Turn(chunk, |Lead(later)| + 2 + n, true)
  {
    assert [] + chunk == chunk;
  }

  lemma FrameIsTurn(prev: Option<byte>, later: bool, frame: seq<byte>, tail: seq<byte>, chunk: seq<byte>)
    requires later || prev.None?
    requires Word(frame + tail) == Some((chunk, |frame|))
    ensures NextTurn(prev, Lead(later) + (OPEN + frame) + tail, later)
      == Some(Turn(chunk, |Lead(later)| + |OPEN + frame|, true))
  {
    var s := Lead(later) + (OPEN + frame) + tail;
    FrameFound(later, frame, tail);
    MakeTurnWord(s, later, chunk, |frame|);
    NextTurnIs(prev, s, later, |Lead(later)|, Some((chunk, |frame|)));
  }

  lemma WordIsTurn(prev: Option<byte>, later: bool, chunk: seq<byte>, tail: seq<byte>)
    ensures ReadsWord(NextTurn, WordText, prev, later, chunk, tail)
  {
    if later || prev.None? {
      WordRoundTrip(chunk, tail);
      FrameIsTurn(prev, later, NAME + Base64.Encode(chunk) + CLOSE, tail, chunk);
    }
  }

  lemma OneWord(turn: Turner, text: Text, prev: Option<byte>, later: bool, chunk: seq<byte>, tail: seq<byte>)
    returns (last: byte)
    requires Shrinking(turn) && (later || prev.None?) && ReadsWord(turn, text, prev, later, chunk, tail)
    ensures Words(turn, prev, Lead(later) + text(chunk) + tail, later) == chunk + Words(turn, Some(last), tail, true)
  {
    var s := Lead(later) + text(chunk) + tail;
    var t := Turn(chunk, |Lead(later)| + |text(chunk)|, true);
    assert turn(prev, s, later) == Some(t);
    assert Fits(t, s);
    WordsStep(turn, prev, s, later, t);
    assert s[t.used..] == tail;
    last := s[t.used - 1];
  }

  ghost predicate Gives(decode: Decoding, text: Text, prev: Option<byte>, later: bool, chunk: seq<byte>, tail: seq<byte>)
  {
    later || prev.None? ==>
      exists last: byte ::
        decode(prev, Lead(later) + text(chunk) + tail, later) == chunk + decode(Some(last), tail, true)
  }

  /** For any decoding that gives one written piece after the other. */
  lemma {:induction false} DecodeJoined(decode: Decoding, text: Text, prev: Option<byte>, later: bool, subject: seq<byte>)
    requires later || prev.None?
    requires forall p, l, c, t :: Gives(decode, text, p, l, c, t)
    requires forall p :: decode(p, [], true) == []
    ensures decode(prev, Lead(later) + Joined(text, subject, [SPACE]), later) == subject
    decreases |subject|
  {
    if |subject| <= MAX_CHUNK {
      assert Gives(decode, text, prev, later, subject, []);
      assert Lead(later) + text(subject) + [] == Lead(later) + text(subject);
      assert subject + [] == subject;
    } else {
      var chunk, more := subject[..MAX_CHUNK], subject[MAX_CHUNK..];
      var tail := Lead(true) + Joined(text, more, [SPACE]);
      assert Gives(decode, text, prev, later, chunk, tail);
      var last: byte :| decode(prev, Lead(later) + text(chunk) + tail, later) == chunk + decode(Some(last), tail, true);
      DecodeJoined(decode, text, Some(last), true, more);
      assert Lead(later) + (text(chunk) + [SPACE] + Joined(text, more, [SPACE])) == Lead(later) + text(chunk) + tail;
      assert subject == chunk + more;
    }
  }

  lemma WordGives(prev: Option<byte>, later: bool, chunk: seq<byte>, tail: seq<byte>)
    requires Shrinking(NextTurn)
    ensures Gives(DecodeWith(NextTurn), WordText, prev, later, chunk, tail)
  {
    if later || prev.None? {
      WordIsTurn(prev, later, chunk, tail);
      var last := OneWord(NextTurn, WordText, prev, later, chunk, tail);
    }
  }

  lemma NothingLeft(prev: Option<byte>)
    requires Shrinking(NextTurn)
    ensures Words(NextTurn, prev, [], true) == []
  {
    assert Find([], EQUALS, QUESTION).None?;
  }

  /** Decoding the unfolded header returns every subject exactly. */
  lemma SubjectRoundTrip(subject: seq<byte>)
    ensures Decode(Unfolded(subject)) == subject
  {
    NextTurnShrinks();
    var decode := DecodeWith(NextTurn);
    forall p, l, c, t ensures Gives(decode, WordText, p, l, c, t) { WordGives(p, l, c, t); }
    forall p ensures decode(p, [], true) == [] { NothingLeft(p); }
    DecodeJoined(decode, WordText, None, false, subject);
    assert Lead(false) + Unfolded(subject) == Unfolded(subject);
  }

  /** Reading back the words of a subject stays within the decoding buffer exactly for
      subjects of at most 32 octets, which are written as one word; the first word of any
      longer one overruns it. */
  lemma SubjectStaysIff(subject: seq<byte>)
    ensures var first := if |subject| <= MAX_CHUNK then subject else subject[..MAX_CHUNK];
      WordBuffer.PiecesFit(0, 0, Base64.START, Base64.Encode(first)) <==> |subject| <= 32
    ensures |subject| <= 32 ==> Unfolded(subject) == WordText(subject)
  {
    WordBuffer.EncodedFitsIff(if |subject| <= MAX_CHUNK then subject else subject[..MAX_CHUNK]);
  }

  // ------------------------------------------------------------- raw subjects

  /** A subject that cannot be written as it is. */
  ghost predicate NeedsWords(subject: seq<byte>)
  {
    || |subject| > MAX_LINE - 9
    || (exists i :: 0 <= i < |subject| && (subject[i] >= 128 || subject[i] < SPACE))
    || Find(subject, EQUALS, QUESTION).Some?
  }

  /** need_encoded_words */
  method NeedEncodedWords(subject: seq<byte>) returns (need: bool)
    ensures need <==> NeedsWords(subject)
  {
    if |subject| > MAX_LINE - 9 {
      return true;
    }
    var i := 0;
    while i < |subject|
      invariant i <= |subject|
      invariant forall j :: 0 <= j < i ==> SPACE <= subject[j] < 128
    {
      if subject[i] >= 128 || subject[i] < SPACE {
        return true;
      }
      i := i + 1;
    }
    i := 0;
    while i + 1 < |subject|
      invariant i <= |subject|
      invariant forall j: nat {:trigger MatchAt(subject, j, EQUALS, QUESTION)} ::
        j < i ==> !MatchAt(subject, j, EQUALS, QUESTION)
    {
      assert MatchAt(subject, i, EQUALS, QUESTION) == (subject[i] == EQUALS && subject[i + 1] == QUESTION);
      if subject[i] == EQUALS && subject[i + 1] == QUESTION {
        return true;
      }
      i := i + 1;
    }
    return false;
  }

  ghost function WrittenSubject(subject: seq<byte>): seq<byte>
  {
    if NeedsWords(subject) then Folded(subject) else subject
  }

  /** write_subject */
  method WriteSubject(subject: seq<byte>) returns (out: seq<byte>)
    ensures out == WrittenSubject(subject)
  {
    var need := NeedEncodedWords(subject);
    if need {
      out := WriteEncodedWords(subject);
    } else {
      out := subject;
    }
  }

  lemma NotFound(s: seq<byte>)
    ensures Find(s, EQUALS, QUESTION).None? <==> NoMarker(s)
  {
    var r := Find(s, EQUALS, QUESTION);
    if r.Some? {
      assert MarkerAt(s, r.value);
    }
  }

  /** A text without "=?" contains nothing to decode. */
  lemma PlainDecodes(text: seq<byte>)
    requires NoMarker(text)
    ensures Decode(text) == text
  {
    NotFound(text);
    NextTurnShrinks();
  }
}
