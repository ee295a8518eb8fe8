/** The mail parser: fed a mail in pieces of any size, it reports the addresses and the
    subject from the headers and the decoded content. */
module MailParser {
  import opened Bytes
  import opened Stream
  import Base64
  import QuotedPrintable
  import EncodedWords
  import opened ParseAddresses

  const TAB: byte := 9
  const LF: byte := 10
  const CR: byte := 13
  const COLON: byte := 58

  datatype Phase = HeaderName | HeaderValueStart | HeaderValue | CheckEol | CheckContinuation | Content

  datatype Header = Skip | To | Cc | Bcc | From | Subject | ContentType | TransferEncoding

  datatype Encoding = Raw | InBase64 | InQuotedPrintable

  datatype Party = Source | Destination

  /** Code the parser relies on: decoding an address and accepting a content type. */
  datatype Env<!A> = Env(decode: seq<byte> -> Option<A>, contentTypeOk: seq<byte> -> bool)

  /** struct ntb_mail_parser, together with what was reported from the headers. */
  datatype Mail<!A> = Mail(
    env: Env<A>,
    phase: Phase,
    header: Header,
    buffer: seq<byte>,
    had: set<Header>,
    encoding: Encoding,
    base64: Base64.State,
    qp: QuotedPrintable.State,
    addresses: seq<(Party, A)>,
    subject: Option<seq<byte>>)

  function Start<A>(env: Env<A>): Mail<A>
  {
    Mail(env, HeaderName, Skip, [], {}, Raw, Base64.START, QuotedPrintable.Start(false), [], None)
  }

  predicate Lwsp(ch: byte)
  {
    ch == SPACE || ch == TAB
  }

  // ----------------------------------------------------------------- headers

  /** The comparison stops at the end of the buffer, so any prefix of a name matches it;
      the terminator of the name may match too. */
  predicate IsHeader(buffer: seq<byte>, name: string)
  {
    |buffer| <= |name| + 1
    && forall i :: 0 <= i < |buffer| ==> EncodedWords.Lower(buffer[i]) == (Ascii(name) + [0])[i]
  }

  function HeaderOf(buffer: seq<byte>): Header
  {
    if IsHeader(buffer, "skip") then Skip
    else if IsHeader(buffer, "to") then To
    else if IsHeader(buffer, "cc") then Cc
    else if IsHeader(buffer, "bcc") then Bcc
    else if IsHeader(buffer, "from") then From
    else if IsHeader(buffer, "subject") then Subject
    else if IsHeader(buffer, "content-type") then ContentType
    else if IsHeader(buffer, "content-transfer-encoding") then TransferEncoding
    else Skip
  }

  function EncodingOf(text: seq<byte>): Option<Encoding>
  {
    if IsHeader(text, "base64") then Some(InBase64)
    else if IsHeader(text, "quoted-printable") then Some(InQuotedPrintable)
    else if IsHeader(text, "7bit") || IsHeader(text, "8bit") then Some(Raw)
    else None
  }

  /** Destinations are all reported; of a sender there may be only one. */
  function TakerOf<A>(env: Env<A>, party: Party, hadFrom: bool): Taker<A>
  {
    (found, text) => if party.Source? && (hadFrom || found != []) then None else env.decode(text)
  }

  function Tagged<A>(party: Party, found: seq<A>): seq<(Party, A)>
  {
    seq(|found|, i requires 0 <= i < |found| => (party, found[i]))
  }

  function Trim(buffer: seq<byte>): (r: seq<byte>)
  {
    if buffer != [] && buffer[|buffer| - 1] == SPACE then buffer[..|buffer| - 1] else buffer
  }

  function HandleAddresses<A>(m: Mail<A>, text: seq<byte>): Option<Mail<A>>
  {
    if m.header != From && m.header in m.had then None
    else
      var party := if m.header == From then Source else Destination;
      match ParseList(TakerOf(m.env, party, From in m.had), text)
      case None => None
      case Some(found) =>
        Some(m.(had := if m.header == From && found == [] then m.had else m.had + {m.header},
                addresses := m.addresses + Tagged(party, found)))
  }

  /** What a finished header does. */
  function HeaderEnd<A>(m: Mail<A>): Option<Mail<A>>
  {
    var text := Trim(m.buffer);
    match m.header
    case Skip => Some(m)
    case To | Cc | Bcc | From => HandleAddresses(m, text)
    case Subject =>
      if Subject in m.had then None
      else Some(m.(had := m.had + {Subject}, subject := Some(EncodedWords.Decode(text))))
    case ContentType =>
      if ContentType in m.had || !m.env.contentTypeOk(text) then None
      else Some(m.(had := m.had + {ContentType}))
    case TransferEncoding =>
      if TransferEncoding in m.had || EncodingOf(text).None? then None
      else Some(m.(had := m.had + {TransferEncoding}, encoding := EncodingOf(text).value))
  }

  /** The empty line: a mail has a sender and some destination. */
  function HeadersEnd<A>(m: Mail<A>): Option<Mail<A>>
  {
    if From !in m.had || (To !in m.had && Cc !in m.had && Bcc !in m.had) then None
    else
      match m.encoding
      case Raw => Some(m.(phase := Content))
      case InBase64 => Some(m.(phase := Content, base64 := Base64.START))
      case InQuotedPrintable => Some(m.(phase := Content, qp := QuotedPrintable.Start(false)))
  }

  // ------------------------------------------------------------ octet by octet

  function Quiet<A>(m: Option<Mail<A>>): Option<(Mail<A>, seq<byte>)>
  {
    if m.None? then None else Some((m.value, []))
  }

  function NameOctet<A>(m: Mail<A>, ch: byte): Option<Mail<A>>
  {
    if ch == LF then (if m.buffer == [] then HeadersEnd(m) else None)
    else if ch == COLON then Some(m.(header := HeaderOf(m.buffer), phase := HeaderValueStart))
    else Some(m.(buffer := m.buffer + [ch]))
  }

  /** Runs of white space become one space. */
  function AddSpace(buffer: seq<byte>): seq<byte>
  {
    if buffer == [] || buffer[|buffer| - 1] != SPACE then buffer + [SPACE] else buffer
  }

  function ValueOctet<A>(m: Mail<A>, ch: byte): Option<Mail<A>>
  {
    if Lwsp(ch) then Some(m.(buffer := AddSpace(m.buffer)))
    else if ch == 0 then None
    else if ch == CR then Some(m.(phase := CheckEol))
    else if ch == LF then Some(m.(phase := CheckContinuation))
    else Some(m.(buffer := m.buffer + [ch]))
  }

  /** At the start of the line after a header. */
  function NextLine<A>(m: Mail<A>, ch: byte): Option<Mail<A>>
  {
    if Lwsp(ch) then ValueOctet(m.(phase := HeaderValue), ch)
    else
      match HeaderEnd(m)
      case None => None
      case Some(done) => NameOctet(done.(buffer := [], phase := HeaderName), ch)
  }

  function ContentOctet<A>(m: Mail<A>, ch: byte): Option<(Mail<A>, seq<byte>)>
  {
    match m.encoding
    case Raw => Some((m, [ch]))
    case InBase64 =>
      (match Base64.Octet(m.base64, ch)
       case None => None
       case Some(r) => Some((m.(base64 := r.0), r.1)))
    case InQuotedPrintable =>
      (match QuotedPrintable.Octet(m.qp, ch)
       case None => None
       case Some(r) => Some((m.(qp := r.0), r.1)))
  }

  function Octet<A>(m: Mail<A>, ch: byte): Option<(Mail<A>, seq<byte>)>
  {
    match m.phase
    case HeaderName => Quiet(NameOctet(m, ch))
    case HeaderValueStart =>
      if Lwsp(ch) then Some((m, [])) else Quiet(ValueOctet(m.(phase := HeaderValue, buffer := []), ch))
    case HeaderValue => Quiet(ValueOctet(m, ch))
    case CheckEol => if ch == LF then Some((m.(phase := CheckContinuation), [])) else None
    case CheckContinuation => Quiet(NextLine(m, ch))
    case Content => ContentOctet(m, ch)
  }

  /** ntb_mail_parser_end: what is left of the content, if the mail may end here. */
  function Finish<A>(m: Mail<A>): Option<seq<byte>>
  {
    if !m.phase.Content? then None
    else
      match m.encoding
      case Raw => Some([])
      case InBase64 => Base64.End(m.base64)
      case InQuotedPrintable => if QuotedPrintable.End(m.qp) then Some([]) else None
  }

  /** All that a mail delivers. */
  datatype Delivery<A> = Delivery(addresses: seq<(Party, A)>, subject: Option<seq<byte>>, content: seq<byte>)

  function Deliver<A>(fed: Option<(Mail<A>, seq<byte>)>): Option<Delivery<A>>
  {
    match fed
    case None => None
    case Some(r) =>
      match Finish(r.0)
      case None => None
      case Some(last) => Some(Delivery(r.0.addresses, r.0.subject, r.1 + last))
  }

  /** The verdict on a mail, and on acceptance all it delivers. */
  function ParseMail<A>(env: Env<A>, mail: seq<byte>): Option<Delivery<A>>
  {
    Deliver(Feed(Octet<A>, Start(env), mail))
  }

  // ---------------------------------------------------------------- in pieces

  lemma {:induction false} NameRun<A>(m: Mail<A>, part: seq<byte>)
    requires m.phase.HeaderName? && LF !in part && COLON !in part
    ensures Feed(Octet<A>, m, part) == Some((m.(buffer := m.buffer + part), []))
    decreases |part|
  {
    if part == [] {
      assert m.buffer + part == m.buffer;
    } else {
      var next := m.(buffer := m.buffer + [part[0]]);
      assert Octet(m, part[0]) == Some((next, []));
      NameRun(next, part[1..]);
      assert m.buffer + [part[0]] + part[1..] == m.buffer + part;
      var none: seq<byte> := [];
      assert none + none == none;
    }
  }

  lemma {:induction false} SkipRun<A>(m: Mail<A>, part: seq<byte>)
    requires m.phase.HeaderValueStart? && forall i :: 0 <= i < |part| ==> Lwsp(part[i])
    ensures Feed(Octet<A>, m, part) == Some((m, []))
    decreases |part|
  {
    if part != [] {
      assert Octet(m, part[0]) == Some((m, []));
      SkipRun(m, part[1..]);
      var none: seq<byte> := [];
      assert none + none == none;
    }
  }

  lemma {:induction false} RawRun<A>(m: Mail<A>, part: seq<byte>)
    requires m.phase.Content? && m.encoding.Raw?
    ensures Feed(Octet<A>, m, part) == Some((m, part))
    decreases |part|
  {
    if part != [] {
      assert Octet(m, part[0]) == Some((m, [part[0]]));
      RawRun(m, part[1..]);
      assert [part[0]] + part[1..] == part;
    }
  }

  lemma {:induction false} Base64Run<A>(m: Mail<A>, part: seq<byte>)
    requires m.phase.Content? && m.encoding.InBase64?
    ensures Feed(Octet<A>, m, part) ==
      match Feed(Base64.Octet, m.base64, part)
      case None => None
      case Some(r) => Some((m.(base64 := r.0), r.1))
    decreases |part|
  {
    if part != [] {
      match Base64.Octet(m.base64, part[0])
      case None =>
        assert Octet(m, part[0]).None?;
      case Some(r) =>
        assert Octet(m, part[0]) == Some((m.(base64 := r.0), r.1));
        Base64Run(m.(base64 := r.0), part[1..]);
    }
  }

  lemma {:induction false} QpRun<A>(m: Mail<A>, part: seq<byte>)
    requires m.phase.Content? && m.encoding.InQuotedPrintable?
    ensures Feed(Octet<A>, m, part) ==
      match Feed(QuotedPrintable.Octet, m.qp, part)
      case None => None
      case Some(r) => Some((m.(qp := r.0), r.1))
    decreases |part|
  {
    if part != [] {
      match QuotedPrintable.Octet(m.qp, part[0])
      case None =>
        assert Octet(m, part[0]).None?;
      case Some(r) =>
        assert Octet(m, part[0]) == Some((m.(qp := r.0), r.1));
        QpRun(m.(qp := r.0), part[1..]);
    }
  }

  /** A state that looks at an octet without using it hands it to the next state. */
  lemma SameFirst<A>(m: Mail<A>, t: Mail<A>, input: seq<byte>)
    requires input != [] && Octet(m, input[0]) == Octet(t, input[0])
    ensures Went(Octet<A>, m, input, t, 0, [])
  {
    assert Feed(Octet<A>, m, input) == Feed(Octet<A>, t, input);
    WentNowhere(Octet<A>, t, input);
  }

  /** Two states look at an octet without using it; neither leads to such a state. */
  function Rank(phase: Phase): nat
  {
    if phase.HeaderValueStart? || phase.CheckContinuation? then 1 else 0
  }

  ghost predicate Handled<A>(m: Mail<A>, input: seq<byte>, t: Mail<A>, processed: Option<nat>, out: seq<byte>)
  {
    if processed.None? then Feed(Octet<A>, m, input).None?
    else Went(Octet<A>, m, input, t, processed.value, out)
  }

  /** NTB_BASE64_MAX_INPUT_FOR_SIZE (512) characters at a time. */
  const BASE64_PIECE: nat := 512 * 4 / 3
  const QP_PIECE: nat := 512

  class Parser<!A> {
    const env: Env<A>
    var phase: Phase
    var header: Header
    var buffer: seq<byte>
    var had: set<Header>
    var encoding: Encoding
    const base64: Base64.Decoder
    const qp: QuotedPrintable.Decoder
    var addresses: seq<(Party, A)>
    var subject: Option<seq<byte>>

    ghost function Abs(): Mail<A>
      reads this, base64, qp
    {
      Mail(env, phase, header, buffer, had, encoding, base64.Abs(), qp.Abs(), addresses, subject)
    }

    constructor (env: Env<A>)
      ensures Abs() == Start(env) && fresh(base64) && fresh(qp) && !qp.underscoreIsSpace
    {
      this.env, phase, header, buffer, had, encoding := env, HeaderName, Skip, [], {}, Raw;
      base64 := new Base64.Decoder();
      qp := new QuotedPrintable.Decoder(false);
      addresses, subject := [], None;
    }

    // ------------------------------------------------------ finished headers

    method HandleSubject(text: seq<byte>) returns (ok: bool)
      requires header.Subject? && text == Trim(buffer)
      modifies this
      ensures HeaderEnd(old(Abs())) == if ok then Some(Abs()) else None
    {
      if Subject in had {
        return false;
      }
      had := had + {Subject};
      var data := new byte[|text|](i requires 0 <= i < |text| => text[i]);
      assert data[..] == text && data[..][..|text|] == text;
      var length := EncodedWords.DecodeInPlace(data, |text|);
      subject := Some(data[..][..length]);
      return true;
    }

    method HandleAddressList(text: seq<byte>) returns (ok: bool)
      modifies this
      ensures HandleAddresses(old(Abs()), text) == if ok then Some(Abs()) else None
    {
      if header != From && header in had {
        return false;
      }
      var party := if header == From then Source else Destination;
      var data := new byte[|text|](i requires 0 <= i < |text| => text[i]);
      assert data[..|text|] == text;
      var list := new ParseAddresses.Parser(TakerOf(env, party, From in had), data);
      ok := list.Run(|text|);
      if !ok {
        return;
      }
      if header != From || list.found != [] {
        had := had + {header};
      }
      addresses := addresses + Tagged(party, list.found);
    }

    method HandleHeaderEnd() returns (ok: bool)
      modifies this
      ensures HeaderEnd(old(Abs())) == if ok then Some(Abs()) else None
    {
      var text := Trim(buffer);
      match header
      case Skip => return true;
      case To | Cc | Bcc | From => ok := HandleAddressList(text);
      case Subject => ok := HandleSubject(text);
      case ContentType =>
        if ContentType in had || !env.contentTypeOk(text) {
          return false;
        }
        had := had + {ContentType};
        return true;
      case TransferEncoding =>
        if TransferEncoding in had || EncodingOf(text).None? {
          return false;
        }
        had, encoding := had + {TransferEncoding}, EncodingOf(text).value;
        return true;
    }

    method HandleHeadersEnd() returns (ok: bool)
      requires !qp.underscoreIsSpace
      modifies this`phase, base64, qp
      ensures HeadersEnd(old(Abs())) == if ok then Some(Abs()) else None
    {
      if From !in had {
        return false;
      }
      if To !in had && Cc !in had && Bcc !in had {
        return false;
      }
      phase := Content;
      match encoding {
        case InBase64 => base64.Start();
        case InQuotedPrintable => qp.Restart();
        case Raw =>
      }
      return true;
    }

    // -------------------------------------------------------- state handlers

    method HandleHeaderName(input: seq<byte>) returns (processed: Option<nat>)
      requires input != [] && phase.HeaderName? && !qp.underscoreIsSpace
      modifies this, base64, qp
      ensures Handled(old(Abs()), input, Abs(), processed, [])
      ensures processed.Some? ==> processed.value > 0
    {
      ghost var s := Abs();
      var end := 0;
      while end < |input| && input[end] != LF && input[end] != COLON
        invariant end <= |input| && LF !in input[..end] && COLON !in input[..end]
      {
        end := end + 1;
      }
      NameRun(s, input[..end]);
      buffer := buffer + input[..end];
      WentPart(Octet<A>, s, input, Abs(), end, []);
      if end >= |input| {
        return Some(end);
      }
      WentOne(Octet<A>, s, input, Abs(), end, []);
      processed := EndHeaderName(input[end], end + 1);
    }

    method EndHeaderName(ch: byte, after: nat) returns (processed: Option<nat>)
      requires phase.HeaderName? && (ch == LF || ch == COLON) && !qp.underscoreIsSpace
      modifies this, base64, qp
      ensures Octet(old(Abs()), ch) == if processed.Some? then Some((Abs(), [])) else None
      ensures processed.Some? ==> processed.value == after
    {
      if ch == LF {
        if buffer != [] {
          return None;
        }
        var ok := HandleHeadersEnd();
        if !ok {
          return None;
        }
      } else {
        header := HeaderOf(buffer);
        phase := HeaderValueStart;
      }
      return Some(after);
    }

    method HandleHeaderValueStart(input: seq<byte>) returns (processed: Option<nat>)
      requires input != [] && phase.HeaderValueStart?
      modifies this
      ensures Handled(old(Abs()), input, Abs(), processed, [])
      ensures processed.Some? && (processed.value > 0 || Rank(phase) == 0)
    {
      ghost var s := Abs();
      var i := 0;
      while i < |input| && Lwsp(input[i])
        invariant i <= |input| && forall j :: 0 <= j < i ==> Lwsp(input[j])
      {
        i := i + 1;
      }
      SkipRun(s, input[..i]);
      WentPart(Octet<A>, s, input, s, i, []);
      if i < |input| {
        phase, buffer := HeaderValue, [];
        assert Octet(s, input[i]) == Octet(Abs(), input[i]);
        SameFirst(s, Abs(), input[i..]);
        WentOn(Octet<A>, s, input, s, i, [], Abs(), 0, []);
      }
      return Some(i);
    }

    method HandleHeaderValue(input: seq<byte>) returns (processed: Option<nat>)
      requires input != [] && phase.HeaderValue?
      modifies this
      ensures Handled(old(Abs()), input, Abs(), processed, [])
      ensures processed.Some? ==> processed.value > 0
    {
      ghost var s := Abs();
      var p := 0;
      WentNowhere(Octet<A>, s, input);
      while p < |input|
        invariant p <= |input| && phase.HeaderValue?
        invariant Went(Octet<A>, s, input, Abs(), p, [])
      {
        WentOne(Octet<A>, s, input, Abs(), p, []);
        ghost var none: seq<byte> := [];
        assert none + none == none;
        var ok := ValueStep(input[p]);
        if !ok {
          return None;
        }
        p := p + 1;
        if !phase.HeaderValue? {
          break;
        }
      }
      return Some(p);
    }

    method ValueStep(ch: byte) returns (ok: bool)
      requires phase.HeaderValue?
      modifies this
      ensures Octet(old(Abs()), ch) == if ok then Some((Abs(), [])) else None
    {
      if Lwsp(ch) {
        buffer := AddSpace(buffer);
      } else if ch == 0 {
        return false;
      } else if ch == CR {
        phase := CheckEol;
      } else if ch == LF {
        phase := CheckContinuation;
      } else {
        buffer := buffer + [ch];
      }
      return true;
    }

    method HandleCheckEol(input: seq<byte>) returns (processed: Option<nat>)
      requires input != [] && phase.CheckEol?
      modifies this
      ensures Handled(old(Abs()), input, Abs(), processed, [])
      ensures processed.Some? ==> processed.value > 0
    {
      WentNowhere(Octet<A>, Abs(), input);
      WentOne(Octet<A>, Abs(), input, Abs(), 0, []);
      if input[0] != LF {
        return None;
      }
      phase := CheckContinuation;
      return Some(1);
    }

    method HandleCheckContinuation(input: seq<byte>) returns (processed: Option<nat>)
      requires input != [] && phase.CheckContinuation?
      modifies this
      ensures Handled(old(Abs()), input, Abs(), processed, [])
      ensures processed.Some? ==> Rank(phase) == 0
    {
      ghost var s := Abs();
      if Lwsp(input[0]) {
        phase := HeaderValue;
      } else {
        var ok := HandleHeaderEnd();
        if !ok {
          return None;
        }
        buffer, phase := [], HeaderName;
      }
      SameFirst(s, Abs(), input);
      return Some(0);
    }

    // ---------------------------------------------------------------- content

    method HandleContentBase64(input: seq<byte>) returns (processed: Option<nat>, out: seq<byte>)
      requires phase.Content? && encoding.InBase64?
      modifies base64
      ensures Handled(old(Abs()), input, Abs(), processed, out)
      ensures processed.Some? ==> processed.value == |input|
    {
      ghost var s := Abs();
      out := [];
      var i := 0;
      WentNowhere(Octet<A>, s, input);
      while i < |input|
        invariant i <= |input| && Went(Octet<A>, s, input, Abs(), i, out)
      {
        var n := if |input| - i < BASE64_PIECE then |input| - i else BASE64_PIECE;
        var piece := input[i..][..n];
        ghost var t := Abs();
        Base64Run(t, piece);
        var got := base64.Push(piece);
        if got.None? {
          FeedPart(s, input, t, i, out, n);
          return None, [];
        }
        WentPart(Octet<A>, t, input[i..], Abs(), n, got.value);
        WentOn(Octet<A>, s, input, t, i, out, Abs(), n, got.value);
        out, i := out + got.value, i + n;
      }
      return Some(|input|), out;
    }

    method HandleContentQuotedPrintable(input: seq<byte>) returns (processed: Option<nat>, out: seq<byte>)
      requires phase.Content? && encoding.InQuotedPrintable?
      modifies qp
      ensures Handled(old(Abs()), input, Abs(), processed, out)
      ensures processed.Some? ==> processed.value == |input|
    {
      ghost var s := Abs();
      out := [];
      var i := 0;
      WentNowhere(Octet<A>, s, input);
      while i < |input|
        invariant i <= |input| && Went(Octet<A>, s, input, Abs(), i, out)
      {
        var n := if |input| - i < QP_PIECE then |input| - i else QP_PIECE;
        var piece := input[i..][..n];
        ghost var t := Abs();
        QpRun(t, piece);
        var got := qp.Push(piece);
        if got.None? {
          FeedPart(s, input, t, i, out, n);
          return None, [];
        }
        WentPart(Octet<A>, t, input[i..], Abs(), n, got.value);
        WentOn(Octet<A>, s, input, t, i, out, Abs(), n, got.value);
        out, i := out + got.value, i + n;
      }
      return Some(|input|), out;
    }

    method HandleContent(input: seq<byte>) returns (processed: Option<nat>, out: seq<byte>)
      requires phase.Content?
      modifies base64, qp
      ensures Handled(old(Abs()), input, Abs(), processed, out)
      ensures processed.Some? ==> processed.value == |input|
    {
      match encoding
      case InBase64 => processed, out := HandleContentBase64(input);
      case InQuotedPrintable => processed, out := HandleContentQuotedPrintable(input);
      case Raw =>
        RawRun(Abs(), input);
        assert input[..|input|] == input;
        WentPart(Octet<A>, Abs(), input, Abs(), |input|, input);
        return Some(|input|), input;
    }

    /** The state's handler. */
    method Handle(input: seq<byte>) returns (processed: Option<nat>, out: seq<byte>)
      requires input != [] && !qp.underscoreIsSpace
      modifies this, base64, qp
      ensures Handled(old(Abs()), input, Abs(), processed, out)
      ensures processed.Some? ==> processed.value > 0 || Rank(phase) < Rank(old(phase))
    {
      out := [];
      match phase
      case HeaderName => processed := HandleHeaderName(input);
      case HeaderValueStart => processed := HandleHeaderValueStart(input);
      case HeaderValue => processed := HandleHeaderValue(input);
      case CheckEol => processed := HandleCheckEol(input);
      case CheckContinuation => processed := HandleCheckContinuation(input);
      case Content => processed, out := HandleContent(input);
    }

    /** ntb_mail_parser_parse: one piece of the mail; the result is the content decoded. */
    method Parse(input: seq<byte>) returns (out: Option<seq<byte>>)
      requires !qp.underscoreIsSpace
      modifies this, base64, qp
      ensures Feed(Octet<A>, old(Abs()), input) == if out.None? then None else Some((Abs(), out.value))
    {
      ghost var s := Abs();
      var octets, i: nat := [], 0;
      WentNowhere(Octet<A>, s, input);
      while i < |input|
        invariant i <= |input| && Went(Octet<A>, s, input, Abs(), i, octets)
        decreases |input| - i, Rank(phase)
      {
        ghost var t := Abs();
        var processed, more := Handle(input[i..]);
        if processed.None? {
          return None;
        }
        WentOn(Octet<A>, s, input, t, i, octets, Abs(), processed.value, more);
        octets, i := octets + more, i + processed.value;
      }
      WentThrough(Octet<A>, s, input, Abs(), octets);
      return Some(octets);
    }

    /** ntb_mail_parser_end */
    method End() returns (last: Option<seq<byte>>)
      ensures last == Finish(Abs())
    {
      if !phase.Content? {
        return None;
      }
      match encoding
      case Raw => return Some([]);
      case InBase64 => return Base64.End(base64.Abs());
      case InQuotedPrintable => return if QuotedPrintable.End(qp.Abs()) then Some([]) else None;
    }
  }

  lemma FeedPart<A>(s: Mail<A>, input: seq<byte>, t: Mail<A>, i: nat, out: seq<byte>, n: nat)
    requires Went(Octet<A>, s, input, t, i, out) && i + n <= |input|
    requires Feed(Octet<A>, t, input[i..][..n]).None?
    ensures Feed(Octet<A>, s, input).None?
  {
    assert input[i..] == input[i..][..n] + input[i..][n..];
    FeedConcat(Octet<A>, t, input[i..][..n], input[i..][n..]);
  }

  /** A mail handed over in pieces gets the verdict, the addresses, the subject and the
      content of the whole mail, however it is cut. */
  method ParsePieces<A>(env: Env<A>, pieces: seq<seq<byte>>) returns (r: Option<Delivery<A>>)
    ensures r == ParseMail(env, Flatten(pieces))
  {
    var parser := new Parser(env);
    var content, i := [], 0;
    ghost var mail := Flatten(pieces);
    assert pieces[0..] == pieces;
    ghost var done: nat := 0;
    WentNowhere(Octet<A>, Start(env), mail);
    assert mail[0..] == mail;
    while i < |pieces|
      invariant i <= |pieces| && done <= |mail| && mail[done..] == Flatten(pieces[i..])
      invariant !parser.qp.underscoreIsSpace && fresh(parser) && fresh(parser.base64) && fresh(parser.qp)
      invariant Went(Octet<A>, Start(env), mail, parser.Abs(), done, content)
    {
      ghost var t, n := parser.Abs(), |pieces[i]|;
      assert pieces[i..][0] == pieces[i] && pieces[i..][1..] == pieces[i + 1..];
      assert mail[done..][..n] == pieces[i];
      var out := parser.Parse(pieces[i]);
      if out.None? {
        FeedPart(Start(env), mail, t, done, content, n);
        return None;
      }
      WentPart(Octet<A>, t, mail[done..], parser.Abs(), n, out.value);
      WentOn(Octet<A>, Start(env), mail, t, done, content, parser.Abs(), n, out.value);
      assert mail[done + n..] == mail[done..][n..];
      content, i, done := content + out.value, i + 1, done + n;
    }
    assert pieces[i..] == [];
    assert |mail[done..]| == 0;
    WentThrough(Octet<A>, Start(env), mail, parser.Abs(), content);
    var last := parser.End();
    if last.None? {
      return None;
    }
    return Some(Delivery(parser.addresses, parser.subject, content + last.value));
  }
}
