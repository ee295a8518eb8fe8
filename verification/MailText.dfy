/** What a mail delivers, stated on its text: header lines in any order, folded and spaced as
    mails are, with addresses, a subject and an encoding, and the content behind them. */
module MailText {
  import opened Bytes
  import opened Stream
  import Base64
  import QuotedPrintable
  import EncodedWords
  import opened ParseAddresses
  import opened MailParser
  import opened QWords

  // ------------------------------------------------------------------- values

  predicate White(ch: byte)
  {
    ch == SPACE || ch == TAB
  }

  /** A value may go over several lines: a line break goes before white space. */
  ghost predicate Foldable(v: seq<byte>)
  {
    forall i {:trigger v[i]} :: 0 <= i < |v| ==>
      && v[i] != 0
      && (v[i] == CR ==> i + 1 < |v| && v[i + 1] == LF)
      && (v[i] == LF ==> i + 1 < |v| && White(v[i + 1]))
  }

  function DropWhite(v: seq<byte>): seq<byte>
  {
    if v != [] && White(v[0]) then DropWhite(v[1..]) else v
  }

  /** Line breaks go, and runs of white space become one space. */
  function Gather(buffer: seq<byte>, v: seq<byte>): seq<byte>
    decreases |v|
  {
    if v == [] then buffer
    else if v[0] == CR || v[0] == LF then Gather(buffer, v[1..])
    else if White(v[0]) then
      Gather(if buffer != [] && buffer[|buffer| - 1] == SPACE then buffer else buffer + [SPACE], v[1..])
    else Gather(buffer + [v[0]], v[1..])
  }

  function WithoutLastSpace(s: seq<byte>): seq<byte>
  {
    if s != [] && s[|s| - 1] == SPACE then s[..|s| - 1] else s
  }

  /** A value as it is read. */
  function Flat(v: seq<byte>): seq<byte>
  {
    WithoutLastSpace(Gather([], DropWhite(v)))
  }

  // -------------------------------------------------------------------- mails

  /** What a header line is about; `Strange` is an encoding that is not known, and `Other` a
      header that is not looked at. */
  datatype Part =
    | Sender(senders: seq<Entry>)
    | Recipients(list: Header, recipients: seq<Entry>)
    | Topic(topic: seq<byte>)
    | Media(media: seq<byte>)
    | Transfer(encoding: Encoding)
    | Strange
    | Other

  /** A line as it is written, ended by a newline or a carriage return and a newline. */
  datatype Line = Line(name: seq<byte>, value: seq<byte>, crlf: bool, part: Part)

  function LineEnd(crlf: bool): seq<byte>
  {
    if crlf then [CR, LF] else [LF]
  }

  function LineText(l: Line): seq<byte>
  {
    l.name + [COLON] + l.value + LineEnd(l.crlf)
  }

  function LinesText(lines: seq<Line>): seq<byte>
  {
    if lines == [] then [] else LineText(lines[0]) + LinesText(lines[1..])
  }

  function Text(lines: seq<Line>, content: seq<byte>): seq<byte>
  {
    LinesText(lines) + ([LF] + content)
  }

  function KindOf(p: Part): Header
  {
    match p
    case Sender(_) => From
    case Recipients(list, _) => list
    case Topic(_) => Subject
    case Media(_) => ContentType
    case Transfer(_) => TransferEncoding
    case Strange => TransferEncoding
    case Other => Skip
  }

  function NameOf(h: Header): string
  {
    match h
    case To => "to"
    case Cc => "cc"
    case Bcc => "bcc"
    case From => "from"
    case Subject => "subject"
    case ContentType => "content-type"
    case TransferEncoding => "content-transfer-encoding"
    case Skip => "skip"
  }

  ghost predicate EncodingNamed(s: seq<byte>, e: Encoding)
  {
    match e
    case Raw => Spelled(s, "7bit") || Spelled(s, "8bit")
    case InBase64 => Spelled(s, "base64")
    case InQuotedPrintable => Spelled(s, "quoted-printable")
  }

  /** The octets begin a name, in any letter case; a name ends with a zero octet. */
  predicate Abbreviates(s: seq<byte>, name: string)
  {
    && |s| <= |name| + 1
    && forall i :: 0 <= i < |s| ==> if i < |name| then SameLetter(s[i], Ascii(name)[i]) else s[i] == 0
  }

  ghost predicate ProperEntries(entries: seq<Entry>)
  {
    entries != [] && forall e :: e in entries ==> ProperEntry(e)
  }

  /** The value of a line says what the line is about. */
  ghost predicate Says(text: seq<byte>, p: Part)
  {
    match p
    case Sender(entries) => ProperEntries(entries) && text == WrittenList(Written, entries)
    case Recipients(list, entries) =>
      list in {To, Cc, Bcc} && ProperEntries(entries) && text == WrittenList(Written, entries)
    case Topic(topic) => EncodedWords.Decode(text) == topic
    case Media(media) => text == media
    case Transfer(e) => EncodingNamed(text, e)
    case Strange =>
      && !Abbreviates(text, "base64") && !Abbreviates(text, "quoted-printable")
      && !Abbreviates(text, "7bit") && !Abbreviates(text, "8bit")
    case Other => true
  }

  /** A name that is not, and does not begin, one of the program's. */
  ghost predicate Unknown(name: seq<byte>)
  {
    && name != [] && !White(name[0]) && LF !in name && COLON !in name
    && forall h: Header :: h.Skip? || !Abbreviates(name, NameOf(h))
  }

  ghost predicate Named(name: seq<byte>, p: Part)
  {
    if p.Other? then Unknown(name) else !KindOf(p).Skip? && Spelled(name, NameOf(KindOf(p)))
  }

  ghost predicate LineOk(l: Line)
  {
    Named(l.name, l.part) && Foldable(l.value) && Says(Flat(l.value), l.part)
  }

  ghost predicate LinesOk(lines: seq<Line>)
  {
    forall l :: l in lines ==> LineOk(l)
  }

  predicate Apart(p: Part, q: Part)
  {
    p.Other? || q.Other? || KindOf(p) != KindOf(q)
  }

  predicate Newly(p: Part, had: set<Header>)
  {
    p.Other? || KindOf(p) !in had
  }

  /** No header that is looked at comes twice, nor one that has come before. */
  ghost predicate OnceEach(lines: seq<Line>, had: set<Header>)
  {
    && (forall i, j :: 0 <= i < j < |lines| ==> Apart(lines[i].part, lines[j].part))
    && (forall l :: l in lines ==> Newly(l.part, had))
  }

  // ------------------------------------------------------- what is to be delivered

  function Decoded<A>(env: Env<A>, party: Party, entries: seq<Entry>): Option<seq<(Party, A)>>
  {
    if entries == [] then Some([])
    else
      match env.decode(entries[0].address)
      case None => None
      case Some(a) =>
        match Decoded(env, party, entries[1..])
        case None => None
        case Some(more) => Some([(party, a)] + more)
  }

  /** The addresses of one line: its one sender as a source, its recipients as destinations;
      or nothing, if the line cannot be accepted. */
  function PartAddresses<A>(env: Env<A>, p: Part): Option<seq<(Party, A)>>
  {
    match p
    case Sender(entries) => if |entries| == 1 then Decoded(env, Source, entries) else None
    case Recipients(_, entries) => Decoded(env, Destination, entries)
    case Topic(_) => Some([])
    case Media(media) => if env.contentTypeOk(media) then Some([]) else None
    case Transfer(_) => Some([])
    case Strange => None
    case Other => Some([])
  }

  /** Those of all lines in order, or nothing if one of them cannot be accepted. */
  function AllAddresses<A>(env: Env<A>, lines: seq<Line>): Option<seq<(Party, A)>>
  {
    if lines == [] then Some([])
    else
      match PartAddresses(env, lines[0].part)
      case None => None
      case Some(first) =>
        match AllAddresses(env, lines[1..])
        case None => None
        case Some(more) => Some(first + more)
  }

  function TopicOf(lines: seq<Line>, topic: Option<seq<byte>>): Option<seq<byte>>
  {
    if lines == [] then topic
    else TopicOf(lines[1..], if lines[0].part.Topic? then Some(lines[0].part.topic) else topic)
  }

  function EncodingOfLines(lines: seq<Line>, encoding: Encoding): Encoding
  {
    if lines == [] then encoding
    else EncodingOfLines(lines[1..], if lines[0].part.Transfer? then lines[0].part.encoding else encoding)
  }

  function ContentOf(encoding: Encoding, content: seq<byte>): Option<seq<byte>>
  {
    match encoding
    case Raw => Some(content)
    case InBase64 => Base64.Decode(content)
    case InQuotedPrintable => QuotedPrintable.Decode(false, content)
  }

  // ------------------------------------------------------------------- values

  lemma {:induction false} GatherRun<A>(m: Mail<A>, v: seq<byte>)
    requires Foldable(v)
    requires match m.phase
      case HeaderValue => true
      case CheckEol => v != [] && v[0] == LF
      case CheckContinuation => v != [] && White(v[0])
      case _ => false
    ensures Feed(Octet<A>, m, v) == Some((m.(phase := HeaderValue, buffer := Gather(m.buffer, v)), []))
    decreases |v|
  {
    if v != [] {
      GatherStep(m, v);
      var next := Octet(m, v[0]).value.0;
      FoldableRest(v);
      GatherRun(next, v[1..]);
      var none: seq<byte> := [];
      assert none + none == none;
    }
  }

  lemma FoldableRest(v: seq<byte>)
    requires v != [] && Foldable(v)
    ensures Foldable(v[1..])
  {
    var rest := v[1..];
    forall i | 0 <= i < |rest|
      ensures rest[i] != 0 && (rest[i] == CR ==> i + 1 < |rest| && rest[i + 1] == LF)
        && (rest[i] == LF ==> i + 1 < |rest| && White(rest[i + 1]))
    {
      assert rest[i] == v[i + 1];
    }
  }

  /** One octet of a value. */
  lemma GatherStep<A>(m: Mail<A>, v: seq<byte>)
    requires v != [] && Foldable(v)
    requires match m.phase
      case HeaderValue => true
      case CheckEol => v[0] == LF
      case CheckContinuation => White(v[0])
      case _ => false
    ensures var r := Octet(m, v[0]);
      && r.Some? && r.value.1 == []
      && r.value.0 == m.(phase := r.value.0.phase, buffer := r.value.0.buffer)
      && (match r.value.0.phase
          case HeaderValue => true
          case CheckEol => |v| > 1 && v[1] == LF
          case CheckContinuation => |v| > 1 && White(v[1])
          case _ => false)
      && Gather(m.buffer, v) == Gather(r.value.0.buffer, v[1..])
  {
  }

  lemma {:induction false} WhiteRun<A>(m: Mail<A>, v: seq<byte>)
    requires m.phase.HeaderValueStart?
    ensures Feed(Octet<A>, m, v) == Feed(Octet<A>, m, DropWhite(v))
    decreases |v|
  {
    if v != [] && White(v[0]) {
      assert Octet(m, v[0]) == Some((m, []));
      WhiteRun(m, v[1..]);
      var r := Feed(Octet<A>, m, v[1..]);
      assert r.Some? ==> [] + r.value.1 == r.value.1;
    }
  }

  lemma {:induction false} DropBefore(v: seq<byte>, end: seq<byte>)
    requires end != [] && !White(end[0])
    ensures DropWhite(v + end) == DropWhite(v) + end
  {
    if v == [] {
      assert v + end == end;
    } else if White(v[0]) {
      assert (v + end)[1..] == v[1..] + end;
      DropBefore(v[1..], end);
    }
  }

  lemma {:induction false} FoldableDropped(v: seq<byte>)
    requires Foldable(v)
    ensures Foldable(DropWhite(v))
  {
    if v != [] && White(v[0]) {
      FoldableRest(v);
      FoldableDropped(v[1..]);
    }
  }

  lemma EndRun<A>(m: Mail<A>, crlf: bool)
    requires m.phase.HeaderValue?
    ensures Feed(Octet<A>, m, LineEnd(crlf)) == Some((m.(phase := CheckContinuation), []))
  {
    var none: seq<byte> := [];
    assert none + none == none;
    if crlf {
      assert [CR, LF] == [CR] + [LF];
      FeedOne(Octet<A>, m, CR);
      FeedOne(Octet<A>, m.(phase := CheckEol), LF);
      FeedConcat(Octet<A>, m, [CR], [LF]);
    } else {
      FeedOne(Octet<A>, m, LF);
    }
  }

  lemma Silent<A>(m: Mail<A>, a: seq<byte>, t: Mail<A>, b: seq<byte>)
    requires Feed(Octet<A>, m, a) == Some((t, []))
    ensures Feed(Octet<A>, m, a + b) == Feed(Octet<A>, t, b)
  {
    FeedConcat(Octet<A>, m, a, b);
    var r := Feed(Octet<A>, t, b);
    assert r.Some? ==> [] + r.value.1 == r.value.1;
  }

  /** A value and the end of its line, from behind the colon. */
  lemma ValueRun<A>(m: Mail<A>, v: seq<byte>, crlf: bool)
    requires m.phase.HeaderValueStart? && Foldable(v)
    ensures Feed(Octet<A>, m, v + LineEnd(crlf))
      == Some((m.(phase := CheckContinuation, buffer := Gather([], DropWhite(v))), []))
  {
    var text, end := DropWhite(v), LineEnd(crlf);
    WhiteRun(m, v + end);
    DropBefore(v, end);
    FoldableDropped(v);
    NotWhite(v);
    assert (text + end)[0] == if text == [] then end[0] else text[0];
    var start := m.(phase := HeaderValue, buffer := []);
    StartsValue(m, text + end);
    GatherRun(start, text);
    var done := start.(buffer := Gather([], text));
    Silent(start, text, done, end);
    EndRun(done, crlf);
  }

  lemma {:induction false} NotWhite(v: seq<byte>)
    ensures DropWhite(v) == [] || !White(DropWhite(v)[0])
  {
    if v != [] && White(v[0]) {
      NotWhite(v[1..]);
    }
  }

  lemma StartsValue<A>(m: Mail<A>, s: seq<byte>)
    requires m.phase.HeaderValueStart? && s != [] && !White(s[0])
    ensures Feed(Octet<A>, m, s) == Feed(Octet<A>, m.(phase := HeaderValue, buffer := []), s)
  {
    assert Octet(m, s[0]) == Octet(m.(phase := HeaderValue, buffer := []), s[0]);
  }

  // -------------------------------------------------------------------- names

  /** A lower-case name matches itself in any letter case. */
  lemma NameMatches(name: seq<byte>, header: string)
    requires Spelled(name, header)
    requires forall i :: 0 <= i < |header| ==> !(65 <= Ascii(header)[i] <= 90)
    ensures IsHeader(name, header)
  {
    forall i | 0 <= i < |name| ensures EncodedWords.Lower(name[i]) == (Ascii(header) + [0])[i] {
      assert SameLetter(name[i], Ascii(header)[i]);
    }
  }

  /** A name with another first letter does not match. */
  lemma OtherName(name: seq<byte>, header: string, own: string)
    requires Spelled(name, own) && own != "" && header != ""
    requires Ascii(own)[0] != Ascii(header)[0]
    requires 97 <= Ascii(own)[0] <= 122
    ensures !IsHeader(name, header)
  {
    assert SameLetter(name[0], Ascii(own)[0]);
    assert EncodedWords.Lower(name[0]) == Ascii(own)[0] && (Ascii(header) + [0])[0] == Ascii(header)[0];
  }

  lemma FirstLetters()
    ensures Ascii("skip")[0] == 115 && Ascii("to")[0] == 116 && Ascii("cc")[0] == 99 && Ascii("bcc")[0] == 98
    ensures Ascii("from")[0] == 102 && Ascii("subject")[0] == 115 && Ascii("content-type")[0] == 99
    ensures Ascii("content-transfer-encoding")[0] == 99
  {
  }

  predicate PlainName(header: string)
  {
    forall i :: 0 <= i < |header| ==> !(65 <= Ascii(header)[i] <= 90) && Ascii(header)[i] != COLON && Ascii(header)[i] != LF
  }

  lemma ShortPlainNames()
    ensures PlainName("to") && PlainName("cc") && PlainName("bcc")
  {
  }

  lemma FromPlain()
    ensures PlainName("from")
  {
  }

  lemma SubjectPlain()
    ensures PlainName("subject")
  {
  }

  lemma TransferPlain()
    ensures PlainName("content-transfer-encoding")
  {
  }

  lemma TypePlain()
    ensures PlainName("content-type") && PlainName("skip")
  {
  }

  lemma PlainNames(h: Header)
    ensures PlainName(NameOf(h))
  {
    TypePlain();
    ShortPlainNames();
    FromPlain();
    SubjectPlain();
    TransferPlain();
  }

  lemma NameIsRead(name: seq<byte>, h: Header)
    requires !h.Skip? && Spelled(name, NameOf(h))
    ensures HeaderOf(name) == h
  {
    FirstLetters();
    PlainNames(h);
    NameMatches(name, NameOf(h));
    match h
    case To => OtherName(name, "skip", "to");
    case Cc =>
      OtherName(name, "skip", "cc");
      OtherName(name, "to", "cc");
    case Bcc =>
      OtherName(name, "skip", "bcc");
      OtherName(name, "to", "bcc");
      OtherName(name, "cc", "bcc");
    case From =>
      OtherName(name, "skip", "from");
      OtherName(name, "to", "from");
      OtherName(name, "cc", "from");
      OtherName(name, "bcc", "from");
    case Subject => SubjectIsRead(name);
    case ContentType => TypeIsRead(name);
    case TransferEncoding => TransferIsRead(name);
  }

  lemma TypeIsRead(name: seq<byte>)
    requires Spelled(name, "content-type") && IsHeader(name, "content-type")
    ensures HeaderOf(name) == ContentType
  {
    FirstLetters();
    OtherName(name, "skip", "content-type");
    OtherName(name, "to", "content-type");
    OtherName(name, "bcc", "content-type");
    OtherName(name, "from", "content-type");
    OtherName(name, "subject", "content-type");
    assert |name| == 12;
  }

  /** What matches a name is what begins it. */
  lemma AbbreviatesIs(s: seq<byte>, header: string)
    requires PlainName(header)
    ensures IsHeader(s, header) ==> Abbreviates(s, header)
  {
    if IsHeader(s, header) {
      forall i | 0 <= i < |s| ensures if i < |header| then SameLetter(s[i], Ascii(header)[i]) else s[i] == 0 {
        assert EncodedWords.Lower(s[i]) == (Ascii(header) + [0])[i];
      }
    }
  }

  lemma UnknownIsSkipped(name: seq<byte>)
    requires Unknown(name)
    ensures HeaderOf(name) == Skip
  {
    forall h: Header | !h.Skip? ensures !IsHeader(name, NameOf(h)) {
      PlainNames(h);
      AbbreviatesIs(name, NameOf(h));
    }
    assert !IsHeader(name, NameOf(To)) && !IsHeader(name, NameOf(Cc)) && !IsHeader(name, NameOf(Bcc));
    assert !IsHeader(name, NameOf(From)) && !IsHeader(name, NameOf(Subject));
    assert !IsHeader(name, NameOf(ContentType)) && !IsHeader(name, NameOf(TransferEncoding));
  }

  lemma SubjectIsRead(name: seq<byte>)
    requires Spelled(name, "subject") && IsHeader(name, "subject")
    ensures HeaderOf(name) == Subject
  {
    FirstLetters();
    OtherName(name, "to", "subject");
    OtherName(name, "cc", "subject");
    OtherName(name, "bcc", "subject");
    OtherName(name, "from", "subject");
    assert |name| == 7;
  }

  lemma TransferIsRead(name: seq<byte>)
    requires Spelled(name, "content-transfer-encoding") && IsHeader(name, "content-transfer-encoding")
    ensures HeaderOf(name) == TransferEncoding
  {
    FirstLetters();
    OtherName(name, "skip", "content-transfer-encoding");
    OtherName(name, "to", "content-transfer-encoding");
    OtherName(name, "bcc", "content-transfer-encoding");
    OtherName(name, "from", "content-transfer-encoding");
    OtherName(name, "subject", "content-transfer-encoding");
    assert |name| == 25;
  }

  lemma NameHasNoColon(name: seq<byte>, header: string)
    requires Spelled(name, header) && PlainName(header)
    ensures LF !in name && COLON !in name
  {
    forall i | 0 <= i < |name| ensures name[i] != LF && name[i] != COLON {
      assert SameLetter(name[i], Ascii(header)[i]);
    }
  }

  lemma EncodingIsRead(text: seq<byte>, e: Encoding)
    requires EncodingNamed(text, e)
    ensures EncodingOf(text) == Some(e)
  {
    EncodingNames();
    QuotedPlain();
    Base64Plain();
    match e
    case InBase64 => NameMatches(text, "base64");
    case InQuotedPrintable =>
      NameMatches(text, "quoted-printable");
      OtherName(text, "base64", "quoted-printable");
    case Raw => RawIsRead(text);
  }

  lemma StrangeIsRefused(text: seq<byte>)
    requires Says(text, Strange)
    ensures EncodingOf(text).None?
  {
    QuotedPlain();
    Base64Plain();
    BitsPlain();
    AbbreviatesIs(text, "base64");
    AbbreviatesIs(text, "quoted-printable");
    AbbreviatesIs(text, "7bit");
    AbbreviatesIs(text, "8bit");
  }

  lemma QuotedPlain()
    ensures PlainName("quoted-printable")
  {
  }

  lemma Base64Plain()
    ensures PlainName("base64")
  {
  }

  lemma BitsPlain()
    ensures PlainName("7bit") && PlainName("8bit")
  {
  }

  lemma EncodingNames()
    ensures Ascii("base64")[0] == 98 && Ascii("quoted-printable")[0] == 113
    ensures Ascii("7bit")[0] == 55 && Ascii("8bit")[0] == 56
  {
  }

  lemma RawIsRead(text: seq<byte>)
    requires Spelled(text, "7bit") || Spelled(text, "8bit")
    ensures EncodingOf(text) == Some(Raw)
  {
    EncodingNames();
    BitsPlain();
    if Spelled(text, "7bit") {
      assert SameLetter(text[0], Ascii("7bit")[0]) && text[0] == 55;
      NameMatches(text, "7bit");
    } else {
      assert SameLetter(text[0], Ascii("8bit")[0]) && text[0] == 56;
      NameMatches(text, "8bit");
    }
    assert EncodedWords.Lower(text[0]) == text[0];
    assert (Ascii("base64") + [0])[0] == 98 && (Ascii("quoted-printable") + [0])[0] == 113;
  }

  // ------------------------------------------------------------ what a line does

  function Marks(p: Part): set<Header>
  {
    if p.Other? then {} else {KindOf(p)}
  }

  /** The parser behind a line whose header is finished. */
  function Advanced<A>(m: Mail<A>, p: Part, found: seq<(Party, A)>): Mail<A>
  {
    m.(phase := HeaderName, header := KindOf(p), buffer := [], had := m.had + Marks(p),
       addresses := m.addresses + found,
       subject := if p.Topic? then Some(p.topic) else m.subject,
       encoding := if p.Transfer? then p.encoding else m.encoding)
  }

  /** The parser at the end of a line. */
  function AtEnd<A>(m: Mail<A>, h: Header, value: seq<byte>): Mail<A>
  {
    m.(phase := CheckContinuation, header := h, buffer := Gather([], DropWhite(value)))
  }

  lemma LineRun<A>(m: Mail<A>, l: Line)
    requires m.phase.HeaderName? && m.buffer == [] && LineOk(l)
    ensures Feed(Octet<A>, m, LineText(l)) == Some((AtEnd(m, KindOf(l.part), l.value), []))
  {
    var h := KindOf(l.part);
    var tail := l.value + LineEnd(l.crlf);
    assert LineText(l) == l.name + ([COLON] + tail);
    NameDone(m, l.name, l.part, tail);
    ValueRun(m.(buffer := l.name, header := h, phase := HeaderValueStart), l.value, l.crlf);
  }

  lemma NameDone<A>(m: Mail<A>, name: seq<byte>, p: Part, tail: seq<byte>)
    requires m.phase.HeaderName? && m.buffer == [] && Named(name, p)
    ensures Feed(Octet<A>, m, name + ([COLON] + tail))
         == Feed(Octet<A>, m.(buffer := name, header := KindOf(p), phase := HeaderValueStart), tail)
  {
    NamedIsRead(name, p);
    NameRun(m, name);
    assert [] + name == name;
    var named := m.(buffer := name);
    Silent(m, name, named, [COLON] + tail);
    ColonRun(named, HeaderOf(name), tail);
  }

  lemma NamedIsRead(name: seq<byte>, p: Part)
    requires Named(name, p)
    ensures HeaderOf(name) == KindOf(p) && LF !in name && COLON !in name
  {
    if p.Other? {
      UnknownIsSkipped(name);
    } else {
      PlainNames(KindOf(p));
      NameIsRead(name, KindOf(p));
      NameHasNoColon(name, NameOf(KindOf(p)));
    }
  }

  lemma ColonRun<A>(m: Mail<A>, h: Header, tail: seq<byte>)
    requires m.phase.HeaderName? && HeaderOf(m.buffer) == h
    ensures Feed(Octet<A>, m, [COLON] + tail) == Feed(Octet<A>, m.(header := h, phase := HeaderValueStart), tail)
  {
    FeedOne(Octet<A>, m, COLON);
    Silent(m, [COLON], m.(header := h, phase := HeaderValueStart), tail);
  }

  lemma {:induction false} TakenAsDestinations<A>(env: Env<A>, hadFrom: bool, found: seq<A>, entries: seq<Entry>)
    ensures Taken(TakerOf(env, Destination, hadFrom), found, entries) ==
      match Decoded(env, Destination, entries) case None => None case Some(ps) => Some(found + Names(ps))
    decreases |entries|
  {
    if entries == [] {
      var none: seq<(Party, A)> := [];
      assert Names(none) == [] && found + Names(none) == found;
    } else if env.decode(entries[0].address).Some? {
      var a := env.decode(entries[0].address).value;
      TakenAsDestinations(env, hadFrom, found + [a], entries[1..]);
      var more := Decoded(env, Destination, entries[1..]);
      if more.Some? {
        assert Names([(Destination, a)] + more.value) == [a] + Names(more.value);
        assert found + [a] + Names(more.value) == found + ([a] + Names(more.value));
      }
    }
  }

  function Names<A>(ps: seq<(Party, A)>): seq<A>
  {
    seq(|ps|, i requires 0 <= i < |ps| => ps[i].1)
  }

  lemma {:induction false} DecodedIsTagged<A>(env: Env<A>, party: Party, entries: seq<Entry>)
    ensures var r := Decoded(env, party, entries);
      r.Some? ==> Tagged(party, Names(r.value)) == r.value && |r.value| == |entries|
  {
    if entries != [] && Decoded(env, party, entries).Some? {
      DecodedIsTagged(env, party, entries[1..]);
      var r, more := Decoded(env, party, entries).value, Decoded(env, party, entries[1..]).value;
      assert r == [r[0]] + more;
      forall i | 0 <= i < |r| ensures Tagged(party, Names(r))[i] == r[i] {
        if i > 0 {
          assert Tagged(party, Names(more))[i - 1] == more[i - 1];
        }
      }
    }
  }

  lemma RecipientsEnd<A>(m: Mail<A>, p: Part, text: seq<byte>)
    requires p.Recipients? && Says(text, p) && m.header == p.list && p.list !in m.had
    ensures HandleAddresses(m, text) ==
      match PartAddresses(m.env, p)
      case None => None
      case Some(ps) => Some(m.(had := m.had + {p.list}, addresses := m.addresses + ps))
  {
    var take := TakerOf(m.env, Destination, From in m.had);
    ListRoundTrip(take, p.recipients);
    TakenAsDestinations(m.env, From in m.had, [], p.recipients);
    DecodedIsTagged(m.env, Destination, p.recipients);
    var r := Decoded(m.env, Destination, p.recipients);
    assert r.Some? ==> [] + Names(r.value) == Names(r.value);
  }

  /** Of senders only one is taken, and only if none has come before. */
  lemma TakenAsSource<A>(env: Env<A>, hadFrom: bool, entries: seq<Entry>)
    requires entries != []
    ensures Taken(TakerOf(env, Source, hadFrom), [], entries) ==
      if hadFrom || |entries| > 1 || env.decode(entries[0].address).None? then None
      else Some([env.decode(entries[0].address).value])
  {
    var take := TakerOf(env, Source, hadFrom);
    var r := take([], entries[0].address);
    if r.Some? {
      assert [] + [r.value] == [r.value];
      if |entries| > 1 {
        assert take([r.value], entries[1..][0].address).None?;
      } else {
        assert entries[1..] == [];
      }
    }
  }

  lemma SenderEnds<A>(m: Mail<A>, p: Part, text: seq<byte>)
    requires p.Sender? && Says(text, p) && m.header == From
    ensures HandleAddresses(m, text) ==
      if From in m.had then None
      else
        match PartAddresses(m.env, p)
        case None => None
        case Some(ps) => Some(m.(had := m.had + {From}, addresses := m.addresses + ps))
  {
    ListRoundTrip(TakerOf(m.env, Source, From in m.had), p.senders);
    TakenAsSource(m.env, From in m.had, p.senders);
    if |p.senders| == 1 {
      OneDecoded(m.env, p.senders);
    }
  }

  lemma OneDecoded<A>(env: Env<A>, entries: seq<Entry>)
    requires |entries| == 1
    ensures Decoded(env, Source, entries) ==
      match env.decode(entries[0].address) case None => None case Some(a) => Some(Tagged(Source, [a]))
  {
    assert entries[1..] == [];
    assert Decoded(env, Source, []) == Some([]);
    if env.decode(entries[0].address).Some? {
      var a := env.decode(entries[0].address).value;
      assert Tagged(Source, [a]) == [(Source, a)] + [];
    }
  }

  lemma AddressesEnd<A>(m: Mail<A>, p: Part, text: seq<byte>)
    requires (p.Sender? || p.Recipients?) && Says(text, p) && m.header == KindOf(p)
    ensures HandleAddresses(m, text) ==
      if !Newly(p, m.had) then None
      else
        match PartAddresses(m.env, p)
        case None => None
        case Some(ps) => Some(m.(had := m.had + Marks(p), addresses := m.addresses + ps))
  {
    if p.Sender? {
      SenderEnds(m, p, text);
    } else if p.list !in m.had {
      RecipientsEnd(m, p, text);
    }
  }

  /** A finished header does what its line says. */
  lemma PartEnds<A>(m: Mail<A>, p: Part, value: seq<byte>)
    requires Says(Flat(value), p)
    ensures
      var r := HeaderEnd(AtEnd(m, KindOf(p), value));
      if !Newly(p, m.had) || PartAddresses(m.env, p).None? then r.None?
      else r.Some? && r.value.(buffer := [], phase := HeaderName) == Advanced(m, p, PartAddresses(m.env, p).value)
  {
    var t := AtEnd(m, KindOf(p), value);
    assert Trim(t.buffer) == Flat(value);
    assert m.addresses + [] == m.addresses && m.had + {} == m.had;
    match p
    case Sender(_) => AddressesEnd(t, p, Flat(value));
    case Recipients(_, _) => AddressesEnd(t, p, Flat(value));
    case Topic(_) =>
    case Media(_) =>
    case Transfer(e) => EncodingIsRead(Flat(value), e);
    case Strange => StrangeIsRefused(Flat(value));
    case Other =>
  }

  /** The next line ends the header before it. */
  lemma LineDone<A>(m: Mail<A>, l: Line, rest: seq<byte>)
    requires m.phase.HeaderName? && m.buffer == [] && LineOk(l)
    requires rest != [] && !White(rest[0])
    ensures Feed(Octet<A>, m, LineText(l) + rest) ==
      if !Newly(l.part, m.had) || PartAddresses(m.env, l.part).None? then None
      else Feed(Octet<A>, Advanced(m, l.part, PartAddresses(m.env, l.part).value), rest)
  {
    var t := AtEnd(m, KindOf(l.part), l.value);
    LineRun(m, l);
    Silent(m, LineText(l), t, rest);
    PartEnds(m, l.part, l.value);
    EndedBy(t, rest);
  }

  lemma EndedBy<A>(t: Mail<A>, rest: seq<byte>)
    requires t.phase.CheckContinuation? && rest != [] && !White(rest[0])
    ensures Feed(Octet<A>, t, rest) ==
      match HeaderEnd(t)
      case None => None
      case Some(done) => Feed(Octet<A>, done.(buffer := [], phase := HeaderName), rest)
  {
    match HeaderEnd(t)
    case None => assert Octet(t, rest[0]).None?;
    case Some(done) => assert Octet(t, rest[0]) == Octet(done.(buffer := [], phase := HeaderName), rest[0]);
  }

  // ---------------------------------------------------------------- all lines

  /** The parser behind all lines. */
  function Behind<A>(m: Mail<A>, lines: seq<Line>, found: seq<(Party, A)>): Mail<A>
  {
    m.(header := if lines == [] then m.header else KindOf(lines[|lines| - 1].part),
       had := m.had + Kinds(lines), addresses := m.addresses + found,
       subject := TopicOf(lines, m.subject), encoding := EncodingOfLines(lines, m.encoding))
  }

  function Kinds(lines: seq<Line>): set<Header>
  {
    if lines == [] then {} else Marks(lines[0].part) + Kinds(lines[1..])
  }

  lemma {:induction false} KindsAre(lines: seq<Line>)
    ensures forall h :: h in Kinds(lines) <==> exists i :: 0 <= i < |lines| && h in Marks(lines[i].part)
  {
    if lines != [] {
      KindsAre(lines[1..]);
      forall h ensures h in Kinds(lines) <==> exists i :: 0 <= i < |lines| && h in Marks(lines[i].part) {
        if h in Kinds(lines[1..]) {
          var i :| 0 <= i < |lines[1..]| && h in Marks(lines[1..][i].part);
          assert h in Marks(lines[i + 1].part);
        }
        if i :| 0 <= i < |lines| && h in Marks(lines[i].part) {
          assert i > 0 ==> lines[1..][i - 1] == lines[i];
        }
      }
    }
  }

  /** What follows the lines is no continuation of the last one. */
  predicate Unfolded(tail: seq<byte>)
  {
    tail != [] && !White(tail[0])
  }

  lemma LinesStart(lines: seq<Line>, tail: seq<byte>)
    requires LinesOk(lines) && Unfolded(tail)
    ensures Unfolded(LinesText(lines) + tail)
    ensures lines != [] ==> LinesText(lines) + tail == LineText(lines[0]) + (LinesText(lines[1..]) + tail)
  {
    if lines == [] {
      assert LinesText(lines) + tail == tail;
    } else {
      assert LineOk(lines[0]);
      LineStarts(lines[0]);
      JoinText(LineText(lines[0]), LinesText(lines[1..]), tail);
    }
  }

  lemma JoinText(a: seq<byte>, b: seq<byte>, c: seq<byte>)
    requires a != []
    ensures a + b + c == a + (b + c) && (a + b + c)[0] == a[0]
  {
  }

  lemma LineStarts(l: Line)
    requires LineOk(l)
    ensures Unfolded(LineText(l))
  {
    NameStarts(l.name, l.part);
    assert LineText(l)[0] == l.name[0];
  }

  lemma NameStarts(name: seq<byte>, p: Part)
    requires Named(name, p)
    ensures Unfolded(name)
  {
    FirstLetters();
    assert !p.Other? ==> SameLetter(name[0], Ascii(NameOf(KindOf(p)))[0]);
  }

  lemma {:induction false} LinesDone<A>(m: Mail<A>, lines: seq<Line>, tail: seq<byte>)
    requires m.phase.HeaderName? && m.buffer == [] && LinesOk(lines) && Unfolded(tail)
    ensures Feed(Octet<A>, m, LinesText(lines) + tail) ==
      if !OnceEach(lines, m.had) then None
      else
        match AllAddresses(m.env, lines)
        case None => None
        case Some(found) => Feed(Octet<A>, Behind(m, lines, found), tail)
    decreases |lines|
  {
    LinesStart(lines, tail);
    if lines == [] {
      assert [] + tail == tail;
      assert m.addresses + [] == m.addresses && m.had + {} == m.had;
      assert Behind(m, lines, []) == m;
    } else {
      var l, rest := lines[0], lines[1..];
      assert LinesOk(rest) && LineOk(l);
      LinesStart(rest, tail);
      LineDone(m, l, LinesText(rest) + tail);
      OnceFirst(lines, m.had);
      if Newly(l.part, m.had) && PartAddresses(m.env, l.part).Some? {
        var first := PartAddresses(m.env, l.part).value;
        LinesDone(Advanced(m, l.part, first), rest, tail);
        if AllAddresses(m.env, rest).Some? {
          BehindNext(m, lines, first, AllAddresses(m.env, rest).value);
        }
      }
    }
  }

  lemma OnceFirst(lines: seq<Line>, had: set<Header>)
    requires lines != []
    ensures OnceEach(lines, had) <==> Newly(lines[0].part, had) && OnceEach(lines[1..], had + Marks(lines[0].part))
  {
    var p, rest := lines[0].part, lines[1..];
    assert lines[0] in lines;
    if OnceEach(lines, had) {
      OnceRest(lines, had);
    }
    if Newly(p, had) && OnceEach(rest, had + Marks(p)) {
      OnceMore(lines, had);
    }
  }

  lemma OnceRest(lines: seq<Line>, had: set<Header>)
    requires lines != [] && OnceEach(lines, had)
    ensures OnceEach(lines[1..], had + Marks(lines[0].part))
  {
    var rest := lines[1..];
    forall l | l in rest ensures Newly(l.part, had + Marks(lines[0].part)) {
      var i :| 0 <= i < |rest| && rest[i] == l;
      assert lines[i + 1] == l && Apart(lines[0].part, lines[i + 1].part);
      assert l in lines;
    }
    forall i, j | 0 <= i < j < |rest| ensures Apart(rest[i].part, rest[j].part) {
      assert rest[i] == lines[i + 1] && rest[j] == lines[j + 1];
    }
  }

  lemma OnceMore(lines: seq<Line>, had: set<Header>)
    requires lines != [] && Newly(lines[0].part, had) && OnceEach(lines[1..], had + Marks(lines[0].part))
    ensures OnceEach(lines, had)
  {
    var p, rest := lines[0].part, lines[1..];
    forall i, j | 0 <= i < j < |lines| ensures Apart(lines[i].part, lines[j].part) {
      assert lines[j] == rest[j - 1] && rest[j - 1] in rest;
      assert i > 0 ==> lines[i] == rest[i - 1];
      assert Newly(rest[j - 1].part, had + Marks(p));
    }
    forall l | l in lines ensures Newly(l.part, had) {
      assert l == lines[0] || l in rest;
    }
  }

  lemma BehindNext<A>(m: Mail<A>, lines: seq<Line>, first: seq<(Party, A)>, more: seq<(Party, A)>)
    requires m.phase.HeaderName? && m.buffer == [] && lines != []
    ensures Behind(Advanced(m, lines[0].part, first), lines[1..], more) == Behind(m, lines, first + more)
  {
    var marks := Marks(lines[0].part);
    assert m.had + marks + Kinds(lines[1..]) == m.had + (marks + Kinds(lines[1..]));
    assert m.addresses + first + more == m.addresses + (first + more);
  }

  // ------------------------------------------------------------------ content

  /** There is a sender and a list of recipients. */
  ghost predicate Addressed(lines: seq<Line>)
  {
    && (exists i :: 0 <= i < |lines| && lines[i].part.Sender?)
    && (exists i :: 0 <= i < |lines| && lines[i].part.Recipients?)
  }

  lemma HeadersDone<A>(m: Mail<A>, content: seq<byte>)
    requires m.phase.HeaderName? && m.buffer == [] && From in m.had && (To in m.had || Cc in m.had || Bcc in m.had)
    ensures Feed(Octet<A>, m, [LF] + content) == Feed(Octet<A>, HeadersEnd(m).value, content)
  {
    FeedOne(Octet<A>, m, LF);
    Silent(m, [LF], HeadersEnd(m).value, content);
  }

  lemma ContentDone<A>(m: Mail<A>, content: seq<byte>)
    requires m.phase.HeaderName? && m.buffer == [] && From in m.had && (To in m.had || Cc in m.had || Bcc in m.had)
    ensures Deliver(Feed(Octet<A>, m, [LF] + content)) ==
      match ContentOf(m.encoding, content)
      case None => None
      case Some(text) => Some(Delivery(m.addresses, m.subject, text))
  {
    HeadersDone(m, content);
    var t := HeadersEnd(m).value;
    match m.encoding
    case Raw =>
      RawRun(t, content);
      assert content + [] == content;
    case InBase64 => Base64Run(t, content);
    case InQuotedPrintable =>
      QpRun(t, content);
      assert forall s: seq<byte> :: s + [] == s;
  }

  lemma AddressedKinds(lines: seq<Line>)
    requires LinesOk(lines)
    ensures Addressed(lines) <==> From in Kinds(lines) && (To in Kinds(lines) || Cc in Kinds(lines) || Bcc in Kinds(lines))
  {
    KindsAre(lines);
    forall i | 0 <= i < |lines| ensures KindOf(lines[i].part) in {To, Cc, Bcc} <==> lines[i].part.Recipients? {
      assert lines[i] in lines && LineOk(lines[i]);
    }
    if Addressed(lines) {
      var i :| 0 <= i < |lines| && lines[i].part.Sender?;
      var j :| 0 <= j < |lines| && lines[j].part.Recipients?;
      assert From in Marks(lines[i].part) && KindOf(lines[j].part) in Marks(lines[j].part);
    }
  }

  /** Any mail made of lines for its sender, its recipients, its subject, its type and its
      encoding, and of other headers, in any order, with names in any letter case and values
      folded and spaced in any way. It is accepted if and only if each header that is looked
      at comes once, there are a sender and recipients, every address can be decoded, the
      type and the encoding are known ones, and the content can be decoded. Then it delivers
      its one sender as a source and its recipients as destinations, in the order of the
      lines, its subject, and its content decoded as it says. */
  lemma MailDelivers<A>(env: Env<A>, lines: seq<Line>, content: seq<byte>)
    requires LinesOk(lines)
    ensures ParseMail(env, Text(lines, content)) ==
      if !OnceEach(lines, {}) || !Addressed(lines) then None
      else
        match AllAddresses(env, lines)
        case None => None
        case Some(found) =>
          match ContentOf(EncodingOfLines(lines, Raw), content)
          case None => None
          case Some(text) => Some(Delivery(found, TopicOf(lines, None), text))
  {
    var m := Start(env);
    LinesDone(m, lines, [LF] + content);
    AddressedKinds(lines);
    if OnceEach(lines, {}) && AllAddresses(env, lines).Some? {
      var found := AllAddresses(env, lines).value;
      assert m.addresses + found == found && m.had + Kinds(lines) == Kinds(lines);
      if Addressed(lines) {
        ContentDone(Behind(m, lines, found), content);
      } else {
        assert Octet(Behind(m, lines, found), LF).None?;
      }
    }
  }

  /** A mail that ends before the empty line is not accepted. */
  lemma HeadersNeedEnd<A>(env: Env<A>, lines: seq<Line>, last: Line)
    requires LinesOk(lines) && LineOk(last)
    ensures ParseMail(env, LinesText(lines) + LineText(last)) == None
  {
    var m := Start(env);
    LineStarts(last);
    LinesDone(m, lines, LineText(last));
    if OnceEach(lines, {}) && AllAddresses(env, lines).Some? {
      LineRun(Behind(m, lines, AllAddresses(env, lines).value), last);
    }
  }
}
