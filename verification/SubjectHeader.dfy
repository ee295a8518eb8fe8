/** A subject written as folded encoded words and read by the mail parser. */
module SubjectHeader {
  import opened Bytes
  import opened Stream
  import Base64
  import EncodedWords
  import opened SaveMessage
  import MailParser
  import opened ParseAddresses

  type Mail<!A> = MailParser.Mail<A>

  /** An octet that a header value keeps as it is. */
  predicate Kept(ch: byte)
  {
    !MailParser.Lwsp(ch) && ch != 0 && ch != MailParser.CR && ch != MailParser.LF
  }

  ghost predicate KeptAll(s: seq<byte>)
  {
    forall i :: 0 <= i < |s| ==> Kept(s[i])
  }

  lemma {:induction false} EncodeKept(data: seq<byte>)
    ensures KeptAll(Base64.Encode(data))
  {
    if |data| >= 3 {
      EncodeKept(data[3..]);
    }
  }

  lemma WordKept(chunk: seq<byte>)
    ensures KeptAll(WordText(chunk)) && WordText(chunk) != []
  {
    EncodeKept(chunk);
  }

  lemma {:induction false} ValueRun<A>(m: Mail<A>, part: seq<byte>)
    requires m.phase.HeaderValue? && KeptAll(part)
    ensures Feed(MailParser.Octet<A>, m, part) == Some((m.(buffer := m.buffer + part), []))
    decreases |part|
  {
    if part == [] {
      assert m.buffer + part == m.buffer;
    } else {
      var next := m.(buffer := m.buffer + [part[0]]);
      assert MailParser.Octet(m, part[0]) == Some((next, []));
      ValueRun(next, part[1..]);
      assert m.buffer + [part[0]] + part[1..] == m.buffer + part;
      var none: seq<byte> := [];
      assert none + none == none;
    }
  }

  /** A newline and a space fold the header and leave one space. */
  lemma FoldRun<A>(m: Mail<A>)
    requires m.phase.HeaderValue? && m.buffer != [] && Kept(m.buffer[|m.buffer| - 1])
    ensures Feed(MailParser.Octet<A>, m, [MailParser.LF, SPACE]) == Some((m.(buffer := m.buffer + [SPACE]), []))
  {
    var fold := [MailParser.LF, SPACE];
    assert MailParser.Octet(m, fold[0]) == Some((m.(phase := MailParser.CheckContinuation), []));
    assert fold[1..] == [SPACE];
    FeedOne(MailParser.Octet<A>, m.(phase := MailParser.CheckContinuation), SPACE);
    var none: seq<byte> := [];
    assert none + none == none;
  }

  lemma Silent<A>(m: Mail<A>, a: seq<byte>, t: Mail<A>, b: seq<byte>, u: Mail<A>)
    requires Feed(MailParser.Octet<A>, m, a) == Some((t, []))
    requires Feed(MailParser.Octet<A>, t, b) == Some((u, []))
    ensures Feed(MailParser.Octet<A>, m, a + b) == Some((u, []))
  {
    FeedConcat(MailParser.Octet<A>, m, a, b);
    var none: seq<byte> := [];
    assert none + none == none;
  }

  /** The parser's buffer collects the unfolded form of what was written. */
  lemma {:induction false} UnfoldRun<A>(text: Text, m: Mail<A>, subject: seq<byte>)
    requires m.phase.HeaderValue? && forall c :: KeptAll(text(c)) && text(c) != []
    ensures Feed(MailParser.Octet<A>, m, Joined(text, subject, [MailParser.LF, SPACE]))
      == Some((m.(buffer := m.buffer + Joined(text, subject, [SPACE])), []))
    decreases |subject|
  {
    if |subject| <= MAX_CHUNK {
      ValueRun(m, text(subject));
    } else {
      var word, more := text(subject[..MAX_CHUNK]), subject[MAX_CHUNK..];
      var fold := [MailParser.LF, SPACE];
      var m1 := m.(buffer := m.buffer + word);
      var m2 := m1.(buffer := m1.buffer + [SPACE]);
      ValueRun(m, word);
      assert m1.buffer[|m1.buffer| - 1] == word[|word| - 1];
      FoldRun(m1);
      UnfoldRun(text, m2, more);
      Silent(m, word, m1, fold, m2);
      UnfoldJoin(m, word, fold, Joined(text, more, fold), Joined(text, more, [SPACE]), m2);
    }
  }

  lemma UnfoldJoin<A>(m: Mail<A>, word: seq<byte>, fold: seq<byte>, more: seq<byte>, rest: seq<byte>, m2: Mail<A>)
    requires m2 == m.(buffer := m.buffer + word + [SPACE])
    requires Feed(MailParser.Octet<A>, m, word + fold) == Some((m2, []))
    requires Feed(MailParser.Octet<A>, m2, more) == Some((m2.(buffer := m2.buffer + rest), []))
    ensures Feed(MailParser.Octet<A>, m, word + fold + more)
      == Some((m.(buffer := m.buffer + (word + [SPACE] + rest)), []))
  {
    Joined3(m.buffer, word, [SPACE], rest);
    Silent(m, word + fold, m2, more, m2.(buffer := m2.buffer + rest));
  }

  lemma Joined3(a: seq<byte>, b: seq<byte>, c: seq<byte>, d: seq<byte>)
    ensures a + b + c + d == a + (b + c + d)
  {
  }

  lemma {:induction false} UnfoldedEnds(text: Text, subject: seq<byte>)
    requires forall c :: KeptAll(text(c)) && text(c) != []
    ensures var u := Joined(text, subject, [SPACE]); u != [] && Kept(u[0]) && Kept(u[|u| - 1])
    decreases |subject|
  {
    if |subject| > MAX_CHUNK {
      UnfoldedEnds(text, subject[MAX_CHUNK..]);
    }
  }

  lemma FoldedStarts(text: Text, subject: seq<byte>)
    requires forall c :: KeptAll(text(c)) && text(c) != []
    ensures var u := Joined(text, subject, [MailParser.LF, SPACE]); u != [] && Kept(u[0])
  {
  }

  /** After "Subject:" the parser skips the space and collects the unfolded words up to
      the end of the line. */
  lemma FoldedIsCollected<A>(m: Mail<A>, subject: seq<byte>)
    requires m.phase.HeaderValueStart?
    ensures Feed(MailParser.Octet<A>, m, [SPACE] + Folded(subject) + [MailParser.LF])
      == Some((m.(phase := MailParser.CheckContinuation, buffer := Unfolded(subject)), []))
  {
    forall c ensures KeptAll(WordText(c)) && WordText(c) != [] { WordKept(c); }
    var start := m.(phase := MailParser.HeaderValue, buffer := []);
    var done := start.(buffer := Unfolded(subject));
    FeedOne(MailParser.Octet<A>, m, SPACE);
    FoldedStarts(WordText, subject);
    UnfoldRun(WordText, start, subject);
    assert [] + Unfolded(subject) == Unfolded(subject);
    StartsValue(m, Folded(subject));
    Silent(m, [SPACE], m, Folded(subject), done);
    FeedOne(MailParser.Octet<A>, done, MailParser.LF);
    Silent(m, [SPACE] + Folded(subject), done, [MailParser.LF], done.(phase := MailParser.CheckContinuation));
  }

  lemma StartsValue<A>(m: Mail<A>, s: seq<byte>)
    requires m.phase.HeaderValueStart? && s != [] && Kept(s[0])
    ensures Feed(MailParser.Octet<A>, m, s)
      == Feed(MailParser.Octet<A>, m.(phase := MailParser.HeaderValue, buffer := []), s)
  {
    assert MailParser.Octet(m, s[0]) == MailParser.Octet(m.(phase := MailParser.HeaderValue, buffer := []), s[0]);
  }

  /** Every subject, written as a folded header, is reported by the parser exactly. */
  lemma SubjectIsReported<A>(m: Mail<A>, subject: seq<byte>)
    requires m.phase.HeaderValueStart? && m.header.Subject? && MailParser.Subject !in m.had
    ensures var fed := Feed(MailParser.Octet<A>, m, [SPACE] + Folded(subject) + [MailParser.LF]);
      fed.Some? && MailParser.HeaderEnd(fed.value.0) ==
        Some(fed.value.0.(had := m.had + {MailParser.Subject}, subject := Some(subject)))
  {
    FoldedIsCollected(m, subject);
    forall c ensures KeptAll(WordText(c)) && WordText(c) != [] { WordKept(c); }
    UnfoldedEnds(WordText, subject);
    SubjectRoundTrip(subject);
  }

  // -------------------------------------------------- subjects written as they are

  /** What the parser's buffer collects: a run of spaces becomes one. */
  function Collect(buffer: seq<byte>, s: seq<byte>): seq<byte>
    decreases |s|
  {
    if s == [] then buffer
    else Collect(if s[0] == SPACE then MailParser.AddSpace(buffer) else buffer + [s[0]], s[1..])
  }

  function DropSpaces(s: seq<byte>): (r: seq<byte>)
    ensures r == [] || r[0] != SPACE
  {
    if s != [] && s[0] == SPACE then DropSpaces(s[1..]) else s
  }

  /** What becomes of a subject that is written as it is. */
  function Tidied(s: seq<byte>): seq<byte>
  {
    MailParser.Trim(Collect([], DropSpaces(s)))
  }

  predicate DoubleAt(s: seq<byte>, j: nat)
  {
    j + 2 <= |s| && s[j] == SPACE && s[j + 1] == SPACE
  }

  ghost predicate NoDouble(s: seq<byte>)
  {
    forall j: nat {:trigger DoubleAt(s, j)} :: !DoubleAt(s, j)
  }

  /** No space at either end, and never two together. */
  ghost predicate Tidy(s: seq<byte>)
  {
    (s == [] || (s[0] != SPACE && s[|s| - 1] != SPACE)) && NoDouble(s)
  }

  ghost predicate Printable(s: seq<byte>)
  {
    forall i :: 0 <= i < |s| ==> SPACE <= s[i] < 128
  }

  lemma NoDoubleMore(b: seq<byte>, ch: byte)
    requires NoDouble(b) && (ch == SPACE ==> b == [] || b[|b| - 1] != SPACE)
    ensures NoDouble(b + [ch])
  {
    forall j: nat ensures !DoubleAt(b + [ch], j) { assert !DoubleAt(b, j); }
  }

  /** What is collected has no two spaces together and starts as it started. */
  lemma {:induction false} CollectTidies(b: seq<byte>, s: seq<byte>)
    requires NoDouble(b) && (b == [] ==> s == [] || s[0] != SPACE) && (b != [] ==> b[0] != SPACE)
    ensures NoDouble(Collect(b, s)) && (Collect(b, s) == [] || Collect(b, s)[0] != SPACE)
    decreases |s|
  {
    if s != [] {
      if s[0] == SPACE && b[|b| - 1] == SPACE {
        CollectTidies(b, s[1..]);
      } else {
        NoDoubleMore(b, s[0]);
        CollectTidies(b + [s[0]], s[1..]);
      }
    }
  }

  lemma TidiedIsTidy(s: seq<byte>)
    ensures Tidy(Tidied(s))
  {
    var c := Collect([], DropSpaces(s));
    CollectTidies([], DropSpaces(s));
    var t := MailParser.Trim(c);
    forall j: nat ensures !DoubleAt(t, j) { assert !DoubleAt(c, j); }
    assert t != [] ==> !DoubleAt(c, |t| - 1);
  }

  lemma {:induction false} CollectSame(b: seq<byte>, s: seq<byte>)
    requires NoDouble(b + s)
    ensures Collect(b, s) == b + s
    decreases |s|
  {
    if s == [] {
      assert b + s == b;
    } else {
      assert (b + [s[0]]) + s[1..] == b + s;
      if s[0] == SPACE && b != [] {
        assert !DoubleAt(b + s, |b| - 1);
      }
      CollectSame(b + [s[0]], s[1..]);
    }
  }

  /** A subject is unchanged exactly when it is tidy. */
  lemma TidiedIff(s: seq<byte>)
    ensures Tidied(s) == s <==> Tidy(s)
  {
    TidiedIsTidy(s);
    if Tidy(s) {
      assert [] + s == s;
      CollectSame([], s);
    }
  }

  lemma {:induction false} CollectNoMarker(b: seq<byte>, s: seq<byte>)
    requires EncodedWords.NoMarker(b + s)
    ensures EncodedWords.NoMarker(Collect(b, s))
    decreases |s|
  {
    if s == [] {
      assert b + s == b;
    } else {
      assert (b + [s[0]]) + s[1..] == b + s;
      if s[0] == SPACE && b != [] && b[|b| - 1] == SPACE {
        NoMarkerLess(b, s);
        CollectNoMarker(b, s[1..]);
      } else {
        CollectNoMarker(b + [s[0]], s[1..]);
      }
    }
  }

  lemma NoMarkerLess(b: seq<byte>, s: seq<byte>)
    requires EncodedWords.NoMarker(b + s) && s != [] && b != [] && b[|b| - 1] == SPACE
    ensures EncodedWords.NoMarker(b + s[1..])
  {
    var x, y := b + s, b + s[1..];
    forall j: nat ensures !EncodedWords.MarkerAt(y, j) {
      assert !EncodedWords.MarkerAt(x, j);
      assert !EncodedWords.MarkerAt(x, j + 1);
    }
  }

  lemma {:induction false} DropNoMarker(s: seq<byte>)
    requires EncodedWords.NoMarker(s)
    ensures EncodedWords.NoMarker(DropSpaces(s))
  {
    if s != [] && s[0] == SPACE {
      forall j: nat ensures !EncodedWords.MarkerAt(s[1..], j) {
        assert !EncodedWords.MarkerAt(s, j + 1);
      }
      DropNoMarker(s[1..]);
    }
  }

  /** Tidying makes no "=?" that was not there. */
  lemma TidiedNoMarker(s: seq<byte>)
    requires EncodedWords.NoMarker(s)
    ensures EncodedWords.NoMarker(Tidied(s))
  {
    DropNoMarker(s);
    var d := DropSpaces(s);
    assert [] + d == d;
    CollectNoMarker([], d);
    var c := Collect([], d);
    forall j: nat ensures !EncodedWords.MarkerAt(MailParser.Trim(c), j) {
      assert !EncodedWords.MarkerAt(c, j);
    }
  }

  lemma {:induction false} PrintableRun<A>(m: Mail<A>, s: seq<byte>)
    requires m.phase.HeaderValue? && Printable(s)
    ensures Feed(MailParser.Octet<A>, m, s) == Some((m.(buffer := Collect(m.buffer, s)), []))
    decreases |s|
  {
    if s != [] {
      var next := m.(buffer := if s[0] == SPACE then MailParser.AddSpace(m.buffer) else m.buffer + [s[0]]);
      assert MailParser.Octet(m, s[0]) == Some((next, []));
      PrintableRun(next, s[1..]);
      var none: seq<byte> := [];
      assert none + none == none;
    }
  }

  lemma {:induction false} LeadingRun<A>(m: Mail<A>, s: seq<byte>)
    requires m.phase.HeaderValueStart?
    ensures Feed(MailParser.Octet<A>, m, s) == Feed(MailParser.Octet<A>, m, DropSpaces(s))
    decreases |s|
  {
    if s != [] && s[0] == SPACE {
      assert MailParser.Octet(m, s[0]) == Some((m, []));
      LeadingRun(m, s[1..]);
      var r := Feed(MailParser.Octet<A>, m, s[1..]);
      assert r.Some? ==> [] + r.value.1 == r.value.1;
    }
  }

  lemma {:induction false} DropBeforeEnd(s: seq<byte>)
    ensures DropSpaces(s + [MailParser.LF]) == DropSpaces(s) + [MailParser.LF]
  {
    if s != [] && s[0] == SPACE {
      assert (s + [MailParser.LF])[1..] == s[1..] + [MailParser.LF];
      DropBeforeEnd(s[1..]);
    }
  }

  lemma {:induction false} DropPrintable(s: seq<byte>)
    requires Printable(s)
    ensures Printable(DropSpaces(s))
  {
    if s != [] && s[0] == SPACE {
      DropPrintable(s[1..]);
    }
  }

  /** After "Subject:" the parser collects a subject that is written as it is. */
  lemma RawIsCollected<A>(m: Mail<A>, subject: seq<byte>)
    requires m.phase.HeaderValueStart? && Printable(subject)
    ensures Feed(MailParser.Octet<A>, m, [SPACE] + subject + [MailParser.LF])
      == Some((m.(phase := MailParser.CheckContinuation, buffer := Collect([], DropSpaces(subject))), []))
  {
    var s := [SPACE] + subject;
    LeadingRun(m, s + [MailParser.LF]);
    DropBeforeEnd(s);
    assert s[1..] == subject;
    DropPrintable(subject);
    RawLine(m, DropSpaces(subject));
  }

  lemma RawLine<A>(m: Mail<A>, text: seq<byte>)
    requires m.phase.HeaderValueStart? && Printable(text) && (text == [] || text[0] != SPACE)
    ensures Feed(MailParser.Octet<A>, m, text + [MailParser.LF])
      == Some((m.(phase := MailParser.CheckContinuation, buffer := Collect([], text)), []))
  {
    var start := m.(phase := MailParser.HeaderValue, buffer := []);
    var s := text + [MailParser.LF];
    assert MailParser.Octet(m, s[0]) == MailParser.Octet(start, s[0]);
    assert Feed(MailParser.Octet<A>, m, s) == Feed(MailParser.Octet<A>, start, s);
    PrintableRun(start, text);
    var done := start.(buffer := Collect([], text));
    FeedOne(MailParser.Octet<A>, done, MailParser.LF);
    Silent(start, text, done, [MailParser.LF], done.(phase := MailParser.CheckContinuation));
  }

  /** The subject the parser reports for a subject written by write_subject. */
  ghost function Reported(subject: seq<byte>): seq<byte>
  {
    if NeedsWords(subject) then subject else Tidied(subject)
  }

  /** write_subject as a whole: the parser reports exactly the subject written if it is
      written as encoded words, or if it has no space at either end and never two together;
      otherwise it reports the subject tidied in these respects. */
  lemma WrittenIsReported<A>(m: Mail<A>, subject: seq<byte>)
    requires m.phase.HeaderValueStart? && m.header.Subject? && MailParser.Subject !in m.had
    ensures var fed := Feed(MailParser.Octet<A>, m, [SPACE] + WrittenSubject(subject) + [MailParser.LF]);
      fed.Some? && MailParser.HeaderEnd(fed.value.0) ==
        Some(fed.value.0.(had := m.had + {MailParser.Subject}, subject := Some(Reported(subject))))
    ensures Reported(subject) == subject <==> NeedsWords(subject) || Tidy(subject)
  {
    TidiedIff(subject);
    if NeedsWords(subject) {
      SubjectIsReported(m, subject);
    } else {
      RawIsReported(m, subject);
    }
  }

  lemma RawIsReported<A>(m: Mail<A>, subject: seq<byte>)
    requires m.phase.HeaderValueStart? && m.header.Subject? && MailParser.Subject !in m.had && !NeedsWords(subject)
    ensures var fed := Feed(MailParser.Octet<A>, m, [SPACE] + subject + [MailParser.LF]);
      fed.Some? && MailParser.HeaderEnd(fed.value.0) ==
        Some(fed.value.0.(had := m.had + {MailParser.Subject}, subject := Some(Tidied(subject))))
  {
    NotFound(subject);
    assert Printable(subject);
    RawIsCollected(m, subject);
    TidiedNoMarker(subject);
    PlainDecodes(Tidied(subject));
  }
}
