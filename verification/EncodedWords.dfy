/** Encoded words in headers (section 2 of RFC 2047), decoded in place: a read
    cursor and a write cursor move over the same buffer. */
module EncodedWords {
  import opened Bytes
  import opened Stream
  import Base64
  import QuotedPrintable
  import WordBuffer

  const SPACE: byte := 32
  const EQUALS: byte := 61
  const QUESTION: byte := 63

  /** "us-ascii?", "utf-8?", "q?", "b?" */
  const US_ASCII: seq<byte> := [117, 115, 45, 97, 115, 99, 105, 105, 63]
  const UTF_8: seq<byte> := [117, 116, 102, 45, 56, 63]
  const Q: seq<byte> := [113, 63]
  const B: seq<byte> := [98, 63]

  // ------------------------------------------------------------ as functions

  predicate MatchAt(s: seq<byte>, k: nat, x: byte, y: byte)
  {
    k + 2 <= |s| && s[k] == x && s[k + 1] == y
  }

  function FindFrom(s: seq<byte>, k: nat, x: byte, y: byte): (r: Option<nat>)
    requires k <= |s|
    ensures r.Some? ==> k <= r.value && MatchAt(s, r.value, x, y)
    ensures forall j: nat {:trigger MatchAt(s, j, x, y)} ::
      k <= j && (r.Some? ==> j < r.value) ==> !MatchAt(s, j, x, y)
    decreases |s| - k
  {
    if k + 2 > |s| then None else if MatchAt(s, k, x, y) then Some(k) else FindFrom(s, k + 1, x, y)
  }

  /** The first place where the two octets follow one another. */
  function Find(s: seq<byte>, x: byte, y: byte): (r: Option<nat>)
    ensures r.Some? ==> MatchAt(s, r.value, x, y)
    ensures forall j: nat {:trigger MatchAt(s, j, x, y)} :: (r.Some? ==> j < r.value) ==> !MatchAt(s, j, x, y)
  {
    FindFrom(s, 0, x, y)
  }

  predicate MarkerAt(s: seq<byte>, j: nat)
  {
    MatchAt(s, j, EQUALS, QUESTION)
  }

  ghost predicate NoMarker(s: seq<byte>)
  {
    forall j: nat {:trigger MarkerAt(s, j)} :: !MarkerAt(s, j)
  }

  function Lower(ch: byte): byte
  {
    if 65 <= ch <= 90 then ch + 32 else ch
  }

  predicate LookingAt(s: seq<byte>, word: seq<byte>)
  {
    |s| >= |word| && forall i :: 0 <= i < |word| ==> Lower(s[i]) == word[i]
  }

  /** How much of the text after "=?" names a known character set. */
  function Charset(s: seq<byte>): (r: nat)
    ensures r <= |s|
  {
    if LookingAt(s, US_ASCII) then |US_ASCII| else if LookingAt(s, UTF_8) then |UTF_8| else 0
  }

  function DecodeBody(quoted: bool, body: seq<byte>): Option<seq<byte>>
  {
    if quoted then QuotedPrintable.Decode(true, body) else Base64.Decode(body)
  }

  /** How much of the text after "=?" names a character set and an encoding, and whether
      that is quoted-printable. */
  function Head(s: seq<byte>): (r: Option<(nat, bool)>)
    ensures r.Some? ==> 2 < r.value.0 <= |s|
  {
    var n := Charset(s);
    if n == 0 || !(LookingAt(s[n..], Q) || LookingAt(s[n..], B)) then None
    else Some((n + 2, LookingAt(s[n..], Q)))
  }

  /** The rest of a word: the decoded octets and how much was used up. */
  function Body(text: seq<byte>, quoted: bool): (r: Option<(seq<byte>, nat)>)
    ensures r.Some? ==> r.value.1 <= |text|
  {
    var end := Find(text, QUESTION, EQUALS);
    if end.None? || SPACE in text[..end.value] || QUESTION in text[..end.value] then None
    else
      var octets := DecodeBody(quoted, text[..end.value]);
      if octets.None? then None else Some((octets.value, end.value + 2))
  }

  /** The text after "=?": the decoded octets and how much was used up. */
  function Word(s: seq<byte>): (r: Option<(seq<byte>, nat)>)
    ensures r.Some? ==> 2 < r.value.1 <= |s|
  {
    var head := Head(s);
    if head.None? then None
    else
      var body := Body(s[head.value.0..], head.value.1);
      if body.None? then None else Some((body.value.0, head.value.0 + body.value.1))
  }

  /** What one turn of the decoding loop does: the text it writes, how much of the
      header it uses up, and whether it ended with an encoded word. */
  datatype Turn = Turn(text: seq<byte>, used: nat, word: bool)

  /** The turn for a "=?" found at e, given what reading a word there gave, if one may
      stand there at all. A single space between two words is dropped. */
  function MakeTurn(s: seq<byte>, e: nat, hadWord: bool, word: Option<(seq<byte>, nat)>): Turn
    requires e + 2 <= |s|
  {
    var isSpace := hadWord && e == 1 && s[0] == SPACE;
    var head := if isSpace then [] else s[..e];
    if word.Some? then Turn(head + word.value.0, e + 2 + word.value.1, true)
    else Turn(head + (if isSpace then [SPACE] else []) + [EQUALS, QUESTION], e + 2, false)
  }

  /** A word must stand at the start of the header or after a space. */
  predicate AtStart(prev: Option<byte>, s: seq<byte>, e: nat)
    requires e <= |s|
  {
    if e == 0 then prev.None? || prev.value == SPACE else s[e - 1] == SPACE
  }

  /** How the text after "=?" is read. */
  type Reader = seq<byte> -> Option<(seq<byte>, nat)>

  /** What a word at e gives, if one may stand there. */
  function WordAt(read: Reader, prev: Option<byte>, s: seq<byte>, e: nat): Option<(seq<byte>, nat)>
    requires e + 2 <= |s|
  {
    if AtStart(prev, s, e) then read(s[e + 2..]) else None
  }

  function TurnBy(read: Reader, prev: Option<byte>, s: seq<byte>, hadWord: bool): Option<Turn>
  {
    var found := Find(s, EQUALS, QUESTION);
    if found.None? then None
    else
      var e := found.value;
      Some(MakeTurn(s, e, hadWord, WordAt(read, prev, s, e)))
  }

  /** One turn, up to and including the next "=?" or encoded word. `prev` is the octet
      before s, and `hadWord` says whether that ended an encoded word. */
  function NextTurn(prev: Option<byte>, s: seq<byte>, hadWord: bool): Option<Turn>
  {
    TurnBy(Word, prev, s, hadWord)
  }

  // The loop over the header does not depend on how a turn is made, only on this: it
  // uses up some text, and writes less than it uses or exactly what it uses.

  type Turner = (Option<byte>, seq<byte>, bool) -> Option<Turn>

  predicate Fits(t: Turn, s: seq<byte>)
  {
    0 < t.used <= |s| && (|t.text| < t.used || t.text == s[..t.used])
  }

  ghost predicate Shrinking(turn: Turner)
  {
    forall prev, s, hadWord :: turn(prev, s, hadWord).Some? ==> Fits(turn(prev, s, hadWord).value, s)
  }

  /** Decodes what is left of a header. */
  function Words(turn: Turner, prev: Option<byte>, s: seq<byte>, hadWord: bool): seq<byte>
    requires Shrinking(turn)
    decreases |s|
  {
    var next := turn(prev, s, hadWord);
    if next.None? then s
    else
      var t := next.value;
      t.text + Words(turn, Some(s[t.used - 1]), s[t.used..], t.word)
  }

  function Decode(header: seq<byte>): seq<byte>
  {
    NextTurnShrinks();
    Words(NextTurn, None, header, false)
  }

  lemma MakeTurnFits(s: seq<byte>, e: nat, hadWord: bool, word: Option<(seq<byte>, nat)>)
    requires e + 2 <= |s|
    requires s[e] == EQUALS && s[e + 1] == QUESTION
    requires word.Some? ==> |word.value.0| + 4 <= word.value.1 <= |s| - e - 2
    ensures Fits(MakeTurn(s, e, hadWord, word), s)
  {
    if word.None? {
      assert MakeTurn(s, e, hadWord, word).text == s[..e + 2];
    }
  }

  lemma NextTurnFits(prev: Option<byte>, s: seq<byte>, hadWord: bool)
    ensures NextTurn(prev, s, hadWord).Some? ==> Fits(NextTurn(prev, s, hadWord).value, s)
  {
    var found := Find(s, EQUALS, QUESTION);
    if found.Some? {
      WordShrinks(s[found.value + 2..]);
      MakeTurnFits(s, found.value, hadWord, WordAt(Word, prev, s, found.value));
    }
  }

  lemma NextTurnShrinks()
    ensures Shrinking(NextTurn)
  {
    forall prev, s, hadWord { NextTurnFits(prev, s, hadWord); }
  }

  // -------------------------------------------------------------- body sizes

  lemma BodyShrinks(quoted: bool, body: seq<byte>)
    ensures var r := DecodeBody(quoted, body); r.Some? ==> |r.value| <= |body|
  {
    if quoted {
      QuotedPrintable.FeedShrinks(QuotedPrintable.Start(true), body);
    } else {
      Base64.DecodeShrinks(body);
    }
  }

  /** A decoded word is shorter than its text, so writing it cannot catch up with
      the reading. */
  lemma WordShrinks(s: seq<byte>)
    ensures Word(s).Some? ==> |Word(s).value.0| + 4 <= Word(s).value.1
  {
    if Word(s).Some? {
      var text := s[Head(s).value.0..];
      BodyShrinks(Head(s).value.1, text[..Find(text, QUESTION, EQUALS).value]);
    }
  }

  // ---------------------------------------------------------------- in place

  /** find_string */
  method FindString(a: array<byte>, start: nat, end: nat, x: byte, y: byte) returns (r: Option<nat>)
    requires start <= end <= a.Length
    ensures r == Find(a[start..end], x, y)
  {
    ghost var s := a[start..end];
    var i := start;
    while end - i >= 2
      invariant start <= i <= end
      invariant forall j: nat {:trigger MatchAt(s, j, x, y)} :: j < i - start ==> !MatchAt(s, j, x, y)
    {
      assert MatchAt(s, i - start, x, y) == (a[i] == x && a[i + 1] == y);
      if a[i] == x && a[i + 1] == y {
        return Some(i - start);
      }
      i := i + 1;
    }
    return None;
  }

  /** memmove and memcpy within the buffer, towards its start. */
  method MoveDown(a: array<byte>, to: nat, part: seq<byte>)
    requires to + |part| <= a.Length
    modifies a
    ensures a[..] == Written(old(a[..]), to, part)
  {
    var i := 0;
    while i < |part|
      invariant i <= |part|
      invariant a[..] == Written(old(a[..]), to, part[..i])
    {
      a[to + i] := part[i];
      i := i + 1;
    }
    assert part[..i] == part;
  }

  /** looking_at, on the buffer. */
  method LooksAt(a: array<byte>, start: nat, end: nat, word: seq<byte>) returns (r: bool)
    requires start <= end <= a.Length
    ensures r == LookingAt(a[start..end], word)
  {
    if end - start < |word| {
      return false;
    }
    var i := 0;
    while i < |word|
      invariant i <= |word|
      invariant forall k :: 0 <= k < i ==> Lower(a[start..end][k]) == word[k]
    {
      assert a[start..end][i] == a[start + i];
      if Lower(a[start + i]) != word[i] {
        return false;
      }
      i := i + 1;
    }
    return true;
  }

  /** No space or question mark in the buffer between two places. */
  method AllPlain(a: array<byte>, start: nat, end: nat) returns (r: bool)
    requires start <= end <= a.Length
    ensures r == !(SPACE in a[start..end] || QUESTION in a[start..end])
  {
    var p := start;
    while p < end
      invariant start <= p <= end
      invariant forall k :: start <= k < p ==> a[k] != SPACE && a[k] != QUESTION
    {
      if a[p] == SPACE || a[p] == QUESTION {
        assert a[p] in a[start..end];
        return false;
      }
      p := p + 1;
    }
    return true;
  }

  /** How much of the buffer from a place on names a character set and an encoding. */
  method ReadHead(a: array<byte>, start: nat, end: nat) returns (n: nat, quoted: bool)
    requires start <= end <= a.Length
    ensures var head := Head(a[start..end]);
      if head.None? then n == 0 else (n, quoted) == head.value
  {
    var ascii := LooksAt(a, start, end, US_ASCII);
    var utf8 := LooksAt(a, start, end, UTF_8);
    if !ascii && !utf8 {
      return 0, false;
    }
    n := if ascii then |US_ASCII| else |UTF_8|;
    assert a[start..end][n..] == a[start + n..end];
    quoted := LooksAt(a, start + n, end, Q);
    var base64 := LooksAt(a, start + n, end, B);
    if !quoted && !base64 {
      return 0, false;
    }
    n := n + 2;
  }

  /** The body of a word, up to where it ends in the buffer. */
  method ReadBody(a: array<byte>, start: nat, end: nat, quoted: bool, size: nat)
    returns (r: Option<(seq<byte>, nat)>, newSize: nat)
    requires start <= end <= a.Length
    ensures r == Body(a[start..end], quoted)
  {
    var found := FindString(a, start, end, QUESTION, EQUALS);
    if found.None? {
      return None, size;
    }
    assert a[start..end][..found.value] == a[start..start + found.value];
    var plain := AllPlain(a, start, start + found.value);
    if !plain {
      return None, size;
    }
    var octets;
    octets, newSize := ProcessBody(a, start, start + found.value, quoted, size);
    r := if octets.None? then None else Some((octets.value, found.value + 2));
  }

  method ProcessBody(a: array<byte>, start: nat, end: nat, quoted: bool, size: nat)
    returns (octets: Option<seq<byte>>, newSize: nat)
    requires start <= end <= a.Length
    ensures octets == DecodeBody(quoted, a[start..end])
  {
    if quoted {
      octets, newSize := WordBuffer.ProcessQuotedPrintable(a[start..end], size);
    } else {
      ghost var fits;
      octets, newSize, fits := WordBuffer.ProcessBase64(a[start..end], size);
    }
  }

  /** process_encoded_word reads the word from the buffer as it stands. */
  method ProcessWord(a: array<byte>, start: nat, end: nat, size: nat)
    returns (r: Option<(seq<byte>, nat)>, newSize: nat)
    requires start <= end <= a.Length
    ensures r == Word(a[start..end])
  {
    var n, quoted := ReadHead(a, start, end);
    if n == 0 {
      return None, size;
    }
    ghost var s := a[start..end];
    assert s[n..] == a[start + n..end];
    var body;
    body, newSize := ReadBody(a, start + n, end, quoted, size);
    WordIs(s, n, quoted, body);
    r := if body.None? then None else Some((body.value.0, n + body.value.1));
  }

  lemma WordIs(s: seq<byte>, n: nat, quoted: bool, body: Option<(seq<byte>, nat)>)
    requires Head(s) == Some((n, quoted)) && Body(s[n..], quoted) == body
    ensures Word(s) == if body.None? then None else Some((body.value.0, n + body.value.1))
  {
  }

  function Prev(header: seq<byte>, pos: nat): Option<byte>
    requires pos <= |header|
  {
    if pos == 0 then None else Some(header[pos - 1])
  }

  /** The state of the buffer b while its first octets, once `header`, are decoded:
      what is not yet written over is intact, and the cursors have met only if
      nothing has changed. */
  ghost predicate Intact(b: seq<byte>, header: seq<byte>, out: nat, pos: nat)
  {
    && out <= pos <= |header| <= |b|
    && b[out..|header|] == header[out..]
    && (out == pos ==> b[..|header|] == header)
  }

  lemma IntactRead(b: seq<byte>, header: seq<byte>, out: nat, pos: nat)
    requires Intact(b, header, out, pos)
    ensures b[pos..|header|] == header[pos..]
    ensures pos > 0 ==> b[pos - 1] == header[pos - 1]
  {
    assert b[pos..|header|] == b[out..|header|][pos - out..];
    if pos > 0 && out < pos {
      assert b[pos - 1] == b[out..|header|][pos - 1 - out];
    } else if pos > 0 {
      assert b[pos - 1] == b[..|header|][pos - 1];
    }
  }

  lemma AfterWritten(b: seq<byte>, out: nat, text: seq<byte>, end: nat)
    requires out + |text| <= end <= |b|
    ensures var n, b' := out + |text|, b[..out] + text + b[out + |text|..];
      && |b'| == |b| && b'[n..end] == b[n..end] && b'[end..] == b[end..] && b'[..n] == b[..out] + text
  {
  }

  lemma IntactWrite(b: seq<byte>, header: seq<byte>, out: nat, pos: nat, text: seq<byte>, used: nat)
    requires Intact(b, header, out, pos) && pos + used <= |header|
    requires |text| < used || text == header[pos..pos + used]
    ensures var b' := b[..out] + text + b[out + |text|..];
      && Intact(b', header, out + |text|, pos + used)
      && b'[..out + |text|] == b[..out] + text && b'[|header|..] == b[|header|..]
  {
    var n := out + |text|;
    var b' := b[..out] + text + b[n..];
    AfterWritten(b, out, text, |header|);
    assert b[n..|header|] == b[out..|header|][|text|..];
    assert header[out..][|text|..] == header[n..];
    if n == pos + used {
      assert out == pos && text == b[..|header|][pos..n];
      assert b == b[..out] + b[pos..n] + b[n..];
      assert b' == b;
    }
  }

  /** The text, with what follows it untouched. */
  function Written(b: seq<byte>, out: nat, text: seq<byte>): seq<byte>
    requires out + |text| <= |b|
  {
    b[..out] + text + b[out + |text|..]
  }

  /** Writing the text of a turn keeps the buffer intact and moves the text from the
      part to be decoded to the part done. */
  lemma WriteStep(b: seq<byte>, header: seq<byte>, out: nat, pos: nat, text: seq<byte>, used: nat,
                  all: seq<byte>, more: seq<byte>)
    requires Intact(b, header, out, pos) && pos + used <= |header| && all == b[..out] + (text + more)
    requires |text| < used || text == header[pos..][..used]
    ensures out + |text| <= |b|
    ensures var b' := Written(b, out, text);
      && Intact(b', header, out + |text|, pos + used)
      && all == b'[..out + |text|] + more && b'[|header|..] == b[|header|..]
  {
    assert header[pos..][..used] == header[pos..pos + used];
    IntactWrite(b, header, out, pos, text, used);
    assert b[..out] + (text + more) == (b[..out] + text) + more;
  }

  /** The head, which is kept as it is, or dropped if it is the space between two words. */
  lemma HeadStep(b: seq<byte>, header: seq<byte>, out: nat, pos: nat, e: nat, dropped: bool)
    requires Intact(b, header, out, pos) && pos + e <= |header| && (dropped ==> e > 0)
    ensures var head := if dropped then [] else header[pos..pos + e];
      && out + |head| <= |b|
      && Intact(Written(b, out, head), header, out + |head|, pos + e)
      && Written(b, out, head)[..out + |head|] == b[..out] + head
      && Written(b, out, head)[|header|..] == b[|header|..]
  {
    var head := if dropped then [] else header[pos..pos + e];
    IntactWrite(b, header, out, pos, head, e);
  }

  /** The head of a turn is moved down before anything else is read. */
  method MoveHead(a: array<byte>, out: nat, pos: nat, e: nat, dropped: bool, ghost header: seq<byte>)
    returns (newOut: nat)
    requires Intact(a[..], header, out, pos) && pos + e <= |header| && (dropped ==> e > 0)
    modifies a
    ensures Intact(a[..], header, newOut, pos + e)
    ensures dropped ==> newOut == out && a[..] == old(a[..])
    ensures !dropped ==> newOut == out + e
    ensures a[..][..newOut] == old(a[..])[..out] + (if dropped then [] else header[pos..pos + e])
    ensures a[..][|header|..] == old(a[..])[|header|..]
  {
    HeadStep(a[..], header, out, pos, e, dropped);
    IntactRead(a[..], header, out, pos);
    assert a[..][pos..|header|][..e] == a[..][pos..pos + e] && header[pos..][..e] == header[pos..pos + e];
    if dropped {
      assert Written(a[..], out, []) == a[..];
      return out;
    }
    MoveDown(a, out, a[..][pos..pos + e]);
    newOut := out + e;
  }

  /** A word is read after the head was moved, but it stands where nothing was written. */
  lemma WordUntouched(b: seq<byte>, header: seq<byte>, out: nat, pos: nat, e: nat)
    requires Intact(b, header, out, pos + e) && pos + e + 2 <= |header|
    ensures (pos + e == 0 || b[pos + e - 1] == SPACE) == AtStart(Prev(header, pos), header[pos..], e)
    ensures b[pos + e + 2..|header|] == header[pos..][e + 2..]
  {
    IntactRead(b, header, out, pos + e);
    assert b[pos + e + 2..|header|] == b[pos + e..|header|][2..];
    assert header[pos + e..][2..] == header[pos..][e + 2..];
  }

  // The turn does not depend on how a word is read, only on these two facts.

  /** The text after "=?" is read as an encoded word. */
  ghost predicate Reads(read: Reader, s: seq<byte>)
  {
    read(s) == Word(s)
  }

  ghost predicate Reading(read: Reader)
  {
    forall s {:trigger Reads(read, s)} :: Reads(read, s)
  }

  lemma ReadFits(read: Reader, s: seq<byte>)
    requires Reading(read)
    ensures read(s).Some? ==> |read(s).value.0| < read(s).value.1 <= |s|
  {
    assert Reads(read, s);
    WordShrinks(s);
  }

  method ReadFrom(a: array<byte>, start: nat, end: nat, size: nat, ghost read: Reader)
    returns (word: Option<(seq<byte>, nat)>, newSize: nat)
    requires start <= end <= a.Length && Reading(read)
    ensures word == read(a[start..end])
  {
    assert Reads(read, a[start..end]);
    word, newSize := ProcessWord(a, start, end, size);
  }

  /** What may follow a "=?", read from the buffer. */
  method ReadWord(a: array<byte>, out: nat, pos: nat, e: nat, length: nat, size: nat, ghost header: seq<byte>,
                  ghost read: Reader)
    returns (word: Option<(seq<byte>, nat)>, newSize: nat)
    requires Reading(read)
    requires |header| == length && Intact(a[..], header, out, pos + e) && pos + e + 2 <= length
    ensures word == WordAt(read, Prev(header, pos), header[pos..], e)
    ensures word.Some? ==> |word.value.0| < word.value.1 <= length - pos - e - 2
  {
    WordUntouched(a[..], header, out, pos, e);
    ReadFits(read, header[pos..][e + 2..]);
    assert a[pos + e + 2..length] == a[..][pos + e + 2..length];
    word, newSize := None, size;
    if pos + e == 0 || a[pos + e - 1] == SPACE {
      word, newSize := ReadFrom(a, pos + e + 2, length, size, read);
    }
  }

  /** The octets of a word are written behind the head. */
  method WriteWord(a: array<byte>, out: nat, ew: nat, octets: seq<byte>, used: nat, ghost header: seq<byte>)
    requires Intact(a[..], header, out, ew) && ew + used <= |header| && |octets| < used
    modifies a
    ensures Intact(a[..], header, out + |octets|, ew + used)
    ensures a[..][..out + |octets|] == old(a[..])[..out] + octets
    ensures a[..][|header|..] == old(a[..])[|header|..]
  {
    IntactWrite(a[..], header, out, ew, octets, used);
    MoveDown(a, out, octets);
  }

  /** "=?" that starts no word is kept, and so is the space before it. */
  method WriteMarker(a: array<byte>, out: nat, ew: nat, isSpace: bool, ghost header: seq<byte>)
    requires ew + 2 <= |header| && header[ew] == EQUALS && header[ew + 1] == QUESTION
    requires if isSpace then ew >= 1 && header[ew - 1] == SPACE && Intact(a[..], header, out, ew - 1)
             else Intact(a[..], header, out, ew)
    modifies a
    ensures var text := (if isSpace then [SPACE] else []) + [EQUALS, QUESTION];
      && Intact(a[..], header, out + |text|, ew + 2)
      && a[..][..out + |text|] == old(a[..])[..out] + text
    ensures a[..][|header|..] == old(a[..])[|header|..]
  {
    var text := (if isSpace then [SPACE] else []) + [EQUALS, QUESTION];
    var from, used := if isSpace then ew - 1 else ew, |text|;
    assert text == header[from..from + used];
    IntactWrite(a[..], header, out, from, text, used);
    MoveDown(a, out, text);
  }

  /** What a turn leaves: the text is written and what follows it is intact. */
  ghost predicate Taken(b: seq<byte>, b': seq<byte>, header: seq<byte>, out: nat, pos: nat, t: Turn)
  {
    && 0 < t.used && out <= |b| && Intact(b', header, out + |t.text|, pos + t.used)
    && b'[..out + |t.text|] == b[..out] + t.text
  }

  /** One turn on the shared buffer, in the order of the program: find "=?", move the text
      before it down, look at the octet before it and read the word from the buffer as it
      then stands, and write what it gives. It is the turn that an untouched copy of the
      header gives. */
  method TakeTurn(a: array<byte>, out: nat, pos: nat, hadWord: bool, length: nat, size: nat, ghost header: seq<byte>,
                  ghost read: Reader)
    returns (found: bool, newOut: nat, newPos: nat, word: bool, newSize: nat)
    requires Reading(read) && |header| == length && Intact(a[..], header, out, pos)
    modifies a
    ensures var next := TurnBy(read, Prev(header, pos), header[pos..], hadWord);
      if !found then next.None? && a[..] == old(a[..])
      else
        && next.Some? && Taken(old(a[..]), a[..], header, out, pos, next.value)
        && newOut == out + |next.value.text| && newPos == pos + next.value.used && word == next.value.word
    ensures a[..][length..] == old(a[..])[length..]
  {
    IntactRead(a[..], header, out, pos);
    assert a[pos..length] == a[..][pos..length];
    var r := FindString(a, pos, length, EQUALS, QUESTION);
    if r.None? {
      return false, out, pos, hadWord, size;
    }
    found := true;
    newOut, newPos, word, newSize := FinishTurn(a, out, pos, r.value, hadWord, length, size, header, read);
  }

  /** The turn for a "=?" that is e octets away. */
  method FinishTurn(a: array<byte>, out: nat, pos: nat, e: nat, hadWord: bool, length: nat, size: nat,
                    ghost header: seq<byte>, ghost read: Reader)
    returns (newOut: nat, newPos: nat, word: bool, newSize: nat)
    requires Reading(read) && |header| == length && Intact(a[..], header, out, pos) && pos + e + 2 <= length
    requires header[pos + e] == EQUALS && header[pos + e + 1] == QUESTION
    modifies a
    ensures var t := MakeTurn(header[pos..], e, hadWord, WordAt(read, Prev(header, pos), header[pos..], e));
      && Taken(old(a[..]), a[..], header, out, pos, t)
      && newOut == out + |t.text| && newPos == pos + t.used && word == t.word
    ensures a[..][length..] == old(a[..])[length..]
  {
    var isSpace := IsSpace(a, out, pos, e, hadWord, length, header);
    ghost var done := a[..][..out];
    var at := MoveHead(a, out, pos, e, isSpace, header);
    var got;
    got, newSize := ReadWord(a, at, pos, e, length, size, header, read);
    newOut, newPos, word := WriteTurn(a, at, pos, e, isSpace, got, header, done, hadWord);
  }

  method WriteTurn(a: array<byte>, at: nat, pos: nat, e: nat, isSpace: bool, got: Option<(seq<byte>, nat)>,
                   ghost header: seq<byte>, ghost done: seq<byte>, ghost hadWord: bool)
    returns (newOut: nat, newPos: nat, word: bool)
    requires pos + e + 2 <= |header| && header[pos + e] == EQUALS && header[pos + e + 1] == QUESTION
    requires isSpace == (hadWord && e == 1 && header[pos] == SPACE)
    requires Intact(a[..], header, at, pos + e) && (isSpace ==> Intact(a[..], header, at, pos + e - 1))
    requires a[..][..at] == done + (if isSpace then [] else header[pos..pos + e])
    requires got.Some? ==> |got.value.0| < got.value.1 <= |header| - pos - e - 2
    modifies a
    ensures var t := MakeTurn(header[pos..], e, hadWord, got);
      && 0 < t.used && newOut == |done| + |t.text| && newPos == pos + t.used && word == t.word
      && Intact(a[..], header, newOut, newPos) && a[..][..newOut] == done + t.text
    ensures a[..][|header|..] == old(a[..])[|header|..]
  {
    MadeText(header, pos, e, hadWord, got);
    ghost var head := if isSpace then [] else header[pos..pos + e];
    if got.Some? {
      WriteWord(a, at, pos + e, got.value.0, 2 + got.value.1, header);
      Join(done, head, got.value.0);
      newOut, newPos, word := at + |got.value.0|, pos + e + 2 + got.value.1, true;
    } else {
      WriteMarker(a, at, pos + e, isSpace, header);
      Join(done, head, (if isSpace then [SPACE] else []) + [EQUALS, QUESTION]);
      newOut, newPos, word := at + (if isSpace then 3 else 2), pos + e + 2, false;
    }
  }

  lemma Join(a: seq<byte>, b: seq<byte>, c: seq<byte>)
    ensures a + b + c == a + (b + c)
  {
  }

  method IsSpace(a: array<byte>, out: nat, pos: nat, e: nat, hadWord: bool, length: nat, ghost header: seq<byte>)
    returns (r: bool)
    requires |header| == length && Intact(a[..], header, out, pos) && pos + e < length
    ensures r == (hadWord && e == 1 && header[pos] == SPACE)
  {
    IntactRead(a[..], header, out, pos);
    assert e == 1 ==> a[..][pos..length][0] == a[pos] && header[pos..][0] == header[pos];
    r := hadWord && e == 1 && a[pos + e - 1] == SPACE;
  }

  /** The text of a turn is its head and what was written behind it. */
  lemma MadeText(header: seq<byte>, pos: nat, e: nat, hadWord: bool, got: Option<(seq<byte>, nat)>)
    requires pos + e + 2 <= |header|
    ensures var isSpace := hadWord && e == 1 && header[pos] == SPACE;
      var head := if isSpace then [] else header[pos..pos + e];
      var t := MakeTurn(header[pos..], e, hadWord, got);
      if got.Some? then t == Turn(head + got.value.0, e + 2 + got.value.1, true)
      else t == Turn(head + ((if isSpace then [SPACE] else []) + [EQUALS, QUESTION]), e + 2, false)
  {
    assert header[pos..][..e] == header[pos..pos + e];
    var isSpace := hadWord && e == 1 && header[pos] == SPACE;
    var head := if isSpace then [] else header[pos..pos + e];
    var space := if isSpace then [SPACE] else [];
    assert head + space + [EQUALS, QUESTION] == head + (space + [EQUALS, QUESTION]);
  }

  /** `rest(pos, hadWord)` is what decoding gives from a position on. */
  type Rest = (nat, bool) -> seq<byte>

  ghost predicate Follows(read: Reader, header: seq<byte>, rest: Rest, pos: nat, hadWord: bool)
    requires pos <= |header|
  {
    LeadsTo(TurnBy(read, Prev(header, pos), header[pos..], hadWord), header, rest, pos, hadWord)
  }

  ghost predicate LeadsTo(next: Option<Turn>, header: seq<byte>, rest: Rest, pos: nat, hadWord: bool)
    requires pos <= |header|
  {
    if next.None? then rest(pos, hadWord) == header[pos..]
    else
      var t := next.value;
      Fits(t, header[pos..]) && rest(pos, hadWord) == t.text + rest(pos + t.used, t.word)
  }

  /** The text after the last turn is moved down as it is. */
  method MoveTail(a: array<byte>, out: nat, pos: nat, ghost header: seq<byte>, length: nat, ghost all: seq<byte>)
    returns (newLength: nat)
    requires |header| == length && Intact(a[..], header, out, pos) && all == a[..][..out] + header[pos..]
    modifies a
    ensures newLength <= length && a[..][..newLength] == all
    ensures a[..][length..] == old(a[..])[length..]
  {
    IntactRead(a[..], header, out, pos);
    assert header[pos..] + [] == header[pos..];
    WriteStep(a[..], header, out, pos, header[pos..], length - pos, all, []);
    MoveDown(a, out, a[..][pos..length]);
    newLength := out + (length - pos);
    assert a[..][..newLength] + [] == a[..][..newLength];
  }

  /** One turn, and what is then left to decode. */
  method StepTurn(a: array<byte>, out: nat, pos: nat, hadWord: bool, length: nat, size: nat,
                  ghost header: seq<byte>, ghost read: Reader, ghost rest: Rest, ghost all: seq<byte>)
    returns (found: bool, newOut: nat, newPos: nat, word: bool, newSize: nat)
    requires Reading(read) && |header| == length && Intact(a[..], header, out, pos)
    requires all == a[..][..out] + rest(pos, hadWord) && Follows(read, header, rest, pos, hadWord)
    modifies a
    ensures !found ==> a[..] == old(a[..]) && rest(pos, hadWord) == header[pos..]
    ensures found ==>
      newPos > pos && Intact(a[..], header, newOut, newPos) && all == a[..][..newOut] + rest(newPos, word)
    ensures a[..][length..] == old(a[..])[length..]
  {
    ghost var b := a[..];
    ghost var next := TurnBy(read, Prev(header, pos), header[pos..], hadWord);
    found, newOut, newPos, word, newSize := TakeTurn(a, out, pos, hadWord, length, size, header, read);
    ghost var b' := a[..];
    if found {
      TakenLeads(b, b', header, out, pos, hadWord, next.value, rest, all, newOut, newPos, word);
    }
  }

  lemma TakenLeads(b: seq<byte>, b': seq<byte>, header: seq<byte>, out: nat, pos: nat, hadWord: bool, t: Turn,
                   rest: Rest, all: seq<byte>, newOut: nat, newPos: nat, word: bool)
    requires newOut == out + |t.text| && newPos == pos + t.used && word == t.word
    requires pos <= |header| && LeadsTo(Some(t), header, rest, pos, hadWord) && Taken(b, b', header, out, pos, t)
    requires all == b[..out] + rest(pos, hadWord)
    ensures newPos > pos && Intact(b', header, newOut, newPos) && all == b'[..newOut] + rest(newPos, word)
  {
    var more := rest(pos + t.used, t.word);
    assert b[..out] + (t.text + more) == b[..out] + t.text + more;
  }

  /** The decoding loop over one shared buffer. The write cursor never passes the read
      cursor, so the result is that of decoding an untouched copy. */
  method DecodeLoop(a: array<byte>, length: nat, ghost read: Reader, ghost rest: Rest) returns (newLength: nat)
    requires Reading(read) && length <= a.Length
    requires forall pos: nat, hadWord :: pos <= length ==> Follows(read, a[..][..length], rest, pos, hadWord)
    modifies a
    ensures newLength <= length && a[..][..newLength] == rest(0, false)
    ensures a[..][length..] == old(a[..])[length..]
  {
    ghost var header := a[..][..length];
    ghost var all := rest(0, false);
    var pos: nat, out: nat, hadWord, size: nat, found := 0, 0, false, 0, true;
    assert [] + all == all;
    while found
      invariant Intact(a[..], header, out, pos)
      invariant all == a[..][..out] + (if found then rest(pos, hadWord) else header[pos..])
      invariant a[..][length..] == old(a[..])[length..]
      decreases found, length - pos
    {
      var newOut, newPos, word;
      found, newOut, newPos, word, size := StepTurn(a, out, pos, hadWord, length, size, header, read, rest, all);
      if found {
        pos, out, hadWord := newPos, newOut, word;
      }
    }
    newLength := MoveTail(a, out, pos, header, length, all);
  }

  /** How the rest of a header is decoded, given the octet before it. */
  type Decoding = (Option<byte>, seq<byte>, bool) -> seq<byte>

  ghost function DecodeWith(turn: Turner): Decoding
    requires Shrinking(turn)
  {
    (prev, s, hadWord) => Words(turn, prev, s, hadWord)
  }

  ghost function RestOf(decode: Decoding, header: seq<byte>): Rest
  {
    (pos: nat, hadWord: bool) => if pos <= |header| then decode(Prev(header, pos), header[pos..], hadWord) else []
  }

  lemma RestOfAll(decode: Decoding, header: seq<byte>)
    ensures RestOf(decode, header)(0, false) == decode(None, header, false)
  {
    var none: nat := 0;
    assert header[none..] == header;
    assert RestOf(decode, header)(none, false) == decode(Prev(header, none), header[none..], false);
  }

  /** Decoding goes on behind a turn. */
  ghost predicate GoesOn(decode: Decoding, next: Option<Turn>, prev: Option<byte>, s: seq<byte>, hadWord: bool)
  {
    if next.None? then decode(prev, s, hadWord) == s
    else
      var t := next.value;
      Fits(t, s) && decode(prev, s, hadWord) == t.text + decode(Some(s[t.used - 1]), s[t.used..], t.word)
  }

  lemma RestFollows(decode: Decoding, next: Option<Turn>, header: seq<byte>, pos: nat, hadWord: bool)
    requires pos <= |header| && GoesOn(decode, next, Prev(header, pos), header[pos..], hadWord)
    ensures LeadsTo(next, header, RestOf(decode, header), pos, hadWord)
  {
    var s := header[pos..];
    if next.Some? {
      var t := next.value;
      assert s[t.used..] == header[pos + t.used..] && Prev(header, pos + t.used) == Some(s[t.used - 1]);
    }
  }

  lemma WordsFollow(turn: Turner, prev: Option<byte>, s: seq<byte>, hadWord: bool)
    requires Shrinking(turn)
    ensures GoesOn(DecodeWith(turn), turn(prev, s, hadWord), prev, s, hadWord)
  {
    var next := turn(prev, s, hadWord);
    if next.Some? {
      WordsStep(turn, prev, s, hadWord, next.value);
    }
  }

  lemma WordsStep(turn: Turner, prev: Option<byte>, s: seq<byte>, hadWord: bool, t: Turn)
    requires Shrinking(turn) && turn(prev, s, hadWord) == Some(t) && Fits(t, s)
    ensures Words(turn, prev, s, hadWord) == t.text + Words(turn, Some(s[t.used - 1]), s[t.used..], t.word)
  {
  }

  /** ntb_encoded_words_decode. */
  method DecodeInPlace(a: array<byte>, length: nat) returns (newLength: nat)
    requires length <= a.Length
    modifies a
    ensures newLength <= length
    ensures a[..][..newLength] == Decode(old(a[..])[..length])
    ensures a[..][length..] == old(a[..])[length..]
  {
    NextTurnShrinks();
    ghost var header, decode := a[..][..length], DecodeWith(NextTurn);
    forall pos: nat, hadWord | pos <= length ensures Follows(Word, header, RestOf(decode, header), pos, hadWord) {
      WordsFollow(NextTurn, Prev(header, pos), header[pos..], hadWord);
      RestFollows(decode, NextTurn(Prev(header, pos), header[pos..], hadWord), header, pos, hadWord);
    }
    RestOfAll(decode, header);
    newLength := DecodeLoop(a, length, Word, RestOf(decode, header));
  }
}
