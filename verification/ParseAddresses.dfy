/** The list of addresses in a mail header. The parser collects each address at the
    start of the very buffer that it is reading. */
module ParseAddresses {
  import opened Bytes
  import Proto

  const SPACE: byte := 32
  const QUOTE: byte := 34
  const COMMA: byte := 44
  const LESS: byte := 60
  const GREATER: byte := 62
  const AT: byte := 64
  const BACKSLASH: byte := 92

  /** "bitmessage" */
  const DOMAIN: seq<byte> := [98, 105, 116, 109, 101, 115, 115, 97, 103, 101]

  /** Decodes the text of an address and offers it to the caller, who may refuse it in
      view of those already taken. */
  type Taker<!A> = (seq<A>, seq<byte>) -> Option<A>

  // ------------------------------------------------ over an untouched copy

  /** memchr: the first place of an octet. */
  function IndexOf(s: seq<byte>, ch: byte): (r: Option<nat>)
    ensures r.Some? ==> r.value < |s| && s[r.value] == ch && ch !in s[..r.value]
    ensures r.None? ==> ch !in s
  {
    if s == [] then None
    else if s[0] == ch then Some(0)
    else
      var r := IndexOf(s[1..], ch);
      if r.None? then None else Some(r.value + 1)
  }

  /** The text up to the '@' is the address, read as a C string; the rest is fixed. */
  function Process<A>(take: Taker<A>, found: seq<A>, text: seq<byte>): Option<seq<A>>
  {
    var end := IndexOf(text, AT);
    if end.None? || text[end.value + 1..] != DOMAIN then None
    else
      match take(found, Proto.CString(text[..end.value]))
      case None => None
      case Some(a) => Some(found + [a])
  }

  /** What has been collected: the text since the last comma or bracket, whether the
      entry had its address in brackets, and the addresses taken. */
  datatype Scan<A> = Scan(text: seq<byte>, had: bool, found: seq<A>)

  function EndAddress<A>(take: Taker<A>, st: Scan<A>): Option<seq<A>>
  {
    if st.had then Some(st.found) else Process(take, st.found, st.text)
  }

  /** The text inside quotes from `at` on, and where it ends. */
  function Quoted(s: seq<byte>, at: nat, text: seq<byte>): (r: Option<(seq<byte>, nat)>)
    ensures r.Some? ==> at < r.value.1 <= |s| && |r.value.0| < |text| + (r.value.1 - at)
    decreases |s| - at
  {
    if at >= |s| then None
    else if s[at] == QUOTE then Some((text, at + 1))
    else if s[at] == BACKSLASH then
      if at + 1 >= |s| then None else Quoted(s, at + 2, text + [s[at + 1]])
    else Quoted(s, at + 1, text + [s[at]])
  }

  /** The text inside brackets. */
  function Bracketed(s: seq<byte>, at: nat, text: seq<byte>): (r: Option<(seq<byte>, nat)>)
    ensures r.Some? ==> at < r.value.1 <= |s| && |r.value.0| == |text| + (r.value.1 - at) - 1
    decreases |s| - at
  {
    if at >= |s| then None
    else if s[at] == GREATER then Some((text, at + 1))
    else Bracketed(s, at + 1, text + [s[at]])
  }

  /** An address in brackets replaces the text before it; there may be only one. */
  function BracketTurn<A>(take: Taker<A>, s: seq<byte>, at: nat, st: Scan<A>): (r: Option<(Scan<A>, nat)>)
    ensures r.Some? ==> at < r.value.1 <= |s| && |r.value.0.text| <= r.value.1 - at
  {
    if st.had then None
    else
      match Bracketed(s, at + 1, [])
      case None => None
      case Some(b) =>
        match Process(take, st.found, b.0)
        case None => None
        case Some(found) => Some((Scan(b.0, true, found), b.1))
  }

  /** One turn of the loop, at an octet of the list. */
  function Turn<A>(take: Taker<A>, s: seq<byte>, at: nat, st: Scan<A>): (r: Option<(Scan<A>, nat)>)
    requires at < |s|
    ensures r.Some? ==> at < r.value.1 <= |s| && |r.value.0.text| <= |st.text| + (r.value.1 - at)
  {
    if s[at] == COMMA then
      match EndAddress(take, st)
      case None => None
      case Some(found) => Some((Scan([], false, found), at + 1))
    else if s[at] == QUOTE then
      match Quoted(s, at + 1, st.text)
      case None => None
      case Some(q) => Some((st.(text := q.0), q.1))
    else if s[at] == LESS then
      BracketTurn(take, s, at, st)
    else if s[at] == SPACE then Some((st, at + 1))
    else Some((st.(text := st.text + [s[at]]), at + 1))
  }

  function Parse<A>(take: Taker<A>, s: seq<byte>, at: nat, st: Scan<A>): Option<seq<A>>
    decreases |s| - at
  {
    if at >= |s| then EndAddress(take, st)
    else
      match Turn(take, s, at, st)
      case None => None
      case Some(next) => Parse(take, s, next.1, next.0)
  }

  /** The addresses of a list, or nothing if it is refused. */
  function ParseList<A>(take: Taker<A>, s: seq<byte>): Option<seq<A>>
  {
    Parse(take, s, 0, Scan([], false, []))
  }

  // -------------------------------------------------------------- in place

  /** struct ntb_parse_addresses_data, with the buffer's storage. */
  class Parser<A> {
    const take: Taker<A>
    const data: array<byte>
    var length: nat
    var hadAddress: bool
    var found: seq<A>

    constructor (take: Taker<A>, data: array<byte>)
      ensures this.take == take && this.data == data && length == 0 && !hadAddress && found == []
    {
      this.take, this.data, length, hadAddress, found := take, data, 0, false, [];
    }

    /** The parser has read `s` up to `at` and the rest is untouched. The collected text
        is at the start of the buffer, at most up to where the reading is; once an
        entry had its address, its text no longer matters. */
    ghost predicate At(s: seq<byte>, at: nat, st: Scan<A>)
      reads this, data
    {
      && at <= |s| <= data.Length && data[at..|s|] == s[at..]
      && length == |st.text| <= at && (!st.had ==> data[..length] == st.text)
      && hadAddress == st.had && found == st.found
    }

    /** An octet that has not been reached is still that of the list. */
    lemma Unread(s: seq<byte>, at: nat, st: Scan<A>, n: nat)
      requires At(s, at, st) && at + n < |s|
      ensures data[at + n] == s[at + n]
    {
      assert data[at..|s|][n] == s[at..][n];
    }

    lemma Skip(s: seq<byte>, at: nat, st: Scan<A>)
      requires At(s, at, st) && at < |s|
      ensures At(s, at + 1, st)
    {
      assert data[at + 1..|s|] == data[at..|s|][1..];
      assert s[at + 1..] == s[at..][1..];
    }

    /** ntb_buffer_append_c: there is always room, so the buffer is never moved. */
    method Append(ch: byte, ghost s: seq<byte>, ghost at: nat, ghost st: Scan<A>, ghost used: nat)
      requires At(s, at, st) && used > 0 && at + used <= |s|
      modifies this`length, data
      ensures At(s, at + used, st.(text := st.text + [ch]))
      ensures data[|s|..] == old(data[|s|..])
    {
      ghost var rest := data[at..|s|];
      data[length] := ch;
      length := length + 1;
      assert data[at + used..|s|] == rest[used..];
      assert s[at..][used..] == s[at + used..];
    }

    method ProcessAddress(ghost text: seq<byte>, ghost size: nat, ghost before: nat) returns (ok: bool)
      requires length <= before <= size <= data.Length && data[..length] == text
      modifies this`found, data
      ensures ok == Process(take, old(found), text).Some?
      ensures ok ==> Some(found) == Process(take, old(found), text)
      ensures data[before..size] == old(data[before..size])
      ensures data[size..] == old(data[size..])
    {
      var end := FindOctet(AT);
      if end.None? {
        return false;
      }
      if data[end.value + 1..length] != DOMAIN {
        return false;
      }
      assert text[end.value + 1..] == data[end.value + 1..length];
      assert text[..end.value] == data[..end.value];
      data[end.value] := 0;
      var a := take(found, Proto.CString(data[..end.value]));
      if a.None? {
        return false;
      }
      found := found + [a.value];
      return true;
    }

    method FindOctet(ch: byte) returns (r: Option<nat>)
      requires length <= data.Length
      ensures r == IndexOf(data[..length], ch)
    {
      var i := 0;
      while i < length
        invariant i <= length
        invariant var whole, rest := IndexOf(data[..length], ch), IndexOf(data[i..length], ch);
          whole == if rest.None? then None else Some(rest.value + i)
      {
        assert data[i..length][1..] == data[i + 1..length];
        if data[i] == ch {
          return Some(i);
        }
        i := i + 1;
      }
      return None;
    }

    method EndEntry(ghost s: seq<byte>, ghost at: nat, ghost st: Scan<A>) returns (ok: bool)
      requires At(s, at, st)
      modifies this, data
      ensures ok == EndAddress(take, st).Some?
      ensures ok ==> At(s, at, Scan([], false, EndAddress(take, st).value))
      ensures data[|s|..] == old(data[|s|..])
    {
      if !hadAddress {
        ok := ProcessAddress(st.text, |s|, at);
        if !ok {
          return;
        }
      }
      length, hadAddress := 0, false;
      return true;
    }

    method ParseQuotes(start: nat, size: nat, ghost s: seq<byte>, ghost st: Scan<A>) returns (end: Option<nat>)
      requires size == |s| && start < size && At(s, start, st)
      modifies this`length, data
      ensures var q := Quoted(s, start + 1, st.text);
        if q.None? then end.None?
        else end == Some(q.value.1) && At(s, q.value.1, st.(text := q.value.0))
      ensures data[|s|..] == old(data[|s|..])
    {
      var i := start + 1;
      ghost var now := st;
      Skip(s, start, st);
      while i < size
        invariant At(s, i, now) && now.had == st.had && now.found == st.found
        invariant Quoted(s, i, now.text) == Quoted(s, start + 1, st.text)
        invariant data[|s|..] == old(data[|s|..])
      {
        Unread(s, i, now, 0);
        if data[i] == QUOTE {
          Skip(s, i, now);
          return Some(i + 1);
        }
        var next := CollectQuoted(i, size, s, now);
        if next.None? {
          return None;
        }
        now := now.(text := now.text + [s[next.value - 1]]);
        i := next.value;
      }
      return None;
    }

    /** An octet within quotes, or the one that is escaped there. */
    method CollectQuoted(i: nat, size: nat, ghost s: seq<byte>, ghost now: Scan<A>) returns (next: Option<nat>)
      requires size == |s| && i < size && At(s, i, now)
      modifies this`length, data
      ensures var n := if s[i] == BACKSLASH then 2 else 1;
        if size - i < n then next.None?
        else next == Some(i + n) && At(s, i + n, now.(text := now.text + [s[i + n - 1]]))
      ensures data[|s|..] == old(data[|s|..])
    {
      Unread(s, i, now, 0);
      var ch, n := data[i], 1;
      if ch == BACKSLASH {
        if size - i < 2 {
          return None;
        }
        Unread(s, i, now, 1);
        ch, n := data[i + 1], 2;
      }
      Append(ch, s, i, now, n);
      return Some(i + n);
    }

    method ParseBrackets(start: nat, size: nat, ghost s: seq<byte>, ghost st: Scan<A>) returns (end: Option<nat>)
      requires size == |s| && start < size && At(s, start, st)
      modifies this, data
      ensures var t := BracketTurn(take, s, start, st);
        if t.None? then end.None? else end == Some(t.value.1) && At(s, t.value.1, t.value.0)
      ensures data[|s|..] == old(data[|s|..])
    {
      if hadAddress {
        return None;
      }
      Skip(s, start, st);
      length := 0;
      var close := CollectBrackets(start + 1, size, s, st.found);
      if close.None? {
        return None;
      }
      end := CloseBracket(close.value, size, s, Scan(Bracketed(s, start + 1, []).value.0, false, st.found));
    }

    method CollectBrackets(start: nat, size: nat, ghost s: seq<byte>, ghost taken: seq<A>) returns (close: Option<nat>)
      requires size == |s| && At(s, start, Scan([], false, taken))
      modifies this`length, data
      ensures var b := Bracketed(s, start, []);
        if b.None? then close.None?
        else close == Some(b.value.1 - 1) && At(s, b.value.1 - 1, Scan(b.value.0, false, taken))
      ensures data[|s|..] == old(data[|s|..])
    {
      var i := start;
      ghost var now := Scan([], false, taken);
      while i < size
        invariant At(s, i, now) && now == Scan(now.text, false, taken)
        invariant Bracketed(s, i, now.text) == Bracketed(s, start, [])
        invariant data[|s|..] == old(data[|s|..])
      {
        Unread(s, i, now, 0);
        var ch := data[i];
        if ch == GREATER {
          return Some(i);
        }
        Append(ch, s, i, now, 1);
        now := now.(text := now.text + [ch]);
        i := i + 1;
      }
      return None;
    }

    method CloseBracket(i: nat, size: nat, ghost s: seq<byte>, ghost now: Scan<A>) returns (end: Option<nat>)
      requires size == |s| && i < size && At(s, i, now) && !now.had
      modifies this, data
      ensures var found := Process(take, now.found, now.text);
        if found.None? then end.None?
        else end == Some(i + 1) && At(s, i + 1, Scan(now.text, true, found.value))
      ensures data[|s|..] == old(data[|s|..])
    {
      var ok := ProcessAddress(now.text, size, i);
      hadAddress := true;
      assert data[i + 1..size] == data[i..size][1..];
      return if ok then Some(i + 1) else None;
    }

    /** One turn of the loop on the shared buffer. */
    method Advance(at: nat, size: nat, ghost s: seq<byte>, ghost st: Scan<A>) returns (end: Option<nat>)
      requires size == |s| && at < size && At(s, at, st)
      modifies this, data
      ensures var t := Turn(take, s, at, st);
        if t.None? then end.None? else end == Some(t.value.1) && At(s, t.value.1, t.value.0)
      ensures data[|s|..] == old(data[|s|..])
    {
      Unread(s, at, st, 0);
      var ch := data[at];
      if ch == COMMA {
        var ok := EndEntry(s, at, st);
        length, hadAddress := 0, false;
        assert data[at + 1..size] == data[at..size][1..];
        return if ok then Some(at + 1) else None;
      } else if ch == QUOTE {
        end := ParseQuotes(at, size, s, st);
      } else if ch == LESS {
        end := ParseBrackets(at, size, s, st);
      } else if ch == SPACE {
        Skip(s, at, st);
        return Some(at + 1);
      } else {
        Append(ch, s, at, st, 1);
        return Some(at + 1);
      }
    }

    /** ntb_parse_addresses: what is collected never passes what is read, so the result
        is that of reading an untouched copy. */
    method Run(size: nat) returns (ok: bool)
      requires size <= data.Length && length == 0 && !hadAddress && found == []
      modifies this, data
      ensures ok == ParseList(take, old(data[..size])).Some?
      ensures ok ==> Some(found) == ParseList(take, old(data[..size]))
      ensures data[size..] == old(data[size..])
    {
      ghost var s := data[..size];
      ghost var st := Scan([], false, []);
      var at := 0;
      while at < size
        invariant At(s, at, st) && Parse(take, s, at, st) == ParseList(take, s)
        invariant data[size..] == old(data[size..])
        decreases size - at
      {
        ghost var t := Turn(take, s, at, st);
        var end := Advance(at, size, s, st);
        if end.None? {
          return false;
        }
        at := end.value;
        st := t.value.0;
      }
      ok := EndEntry(s, at, st);
    }
  }

  // ------------------------------------------------------------ round trip

  /** An entry of a list: an address alone, or in brackets behind a quoted name or words. */
  datatype Display = Bare | InQuotes(name: seq<byte>) | Words(words: seq<byte>)

  datatype Entry = Entry(display: Display, address: seq<byte>)

  function EscapeOctet(ch: byte): seq<byte>
  {
    if ch == QUOTE || ch == BACKSLASH then [BACKSLASH, ch] else [ch]
  }

  function Escape(name: seq<byte>): seq<byte>
  {
    if name == [] then [] else EscapeOctet(name[0]) + Escape(name[1..])
  }

  function QuotedPart(name: seq<byte>): seq<byte>
  {
    [QUOTE] + (Escape(name) + ([QUOTE] + [SPACE]))
  }

  function Mailbox(address: seq<byte>): seq<byte>
  {
    address + [AT] + DOMAIN
  }

  function BracketPart(address: seq<byte>): seq<byte>
  {
    [LESS] + (Mailbox(address) + [GREATER])
  }

  function NamePart(d: Display): seq<byte>
  {
    match d
    case Bare => []
    case InQuotes(name) => QuotedPart(name)
    case Words(words) => words
  }

  function Written(e: Entry): seq<byte>
  {
    if e.display.Bare? then Mailbox(e.address) else NamePart(e.display) + BracketPart(e.address)
  }

  function WrittenList(write: Entry -> seq<byte>, entries: seq<Entry>): seq<byte>
    requires entries != []
  {
    if |entries| == 1 then write(entries[0])
    else write(entries[0]) + [COMMA, SPACE] + WrittenList(write, entries[1..])
  }

  /** The addresses offered to the caller one after the other. */
  function Taken<A>(take: Taker<A>, found: seq<A>, entries: seq<Entry>): Option<seq<A>>
    decreases |entries|
  {
    if entries == [] then Some(found)
    else
      match take(found, entries[0].address)
      case None => None
      case Some(a) => Taken(take, found + [a], entries[1..])
  }

  predicate Plain(address: seq<byte>)
  {
    0 !in address && AT !in address && GREATER !in address
  }

  /** An octet that is collected, if it is not a space. */
  predicate Ordinary(ch: byte)
  {
    ch != COMMA && ch != QUOTE && ch != LESS
  }

  /** An address that can stand in a list as it is written: without brackets it must not
      have any octet that means something there, and neither may words before brackets. */
  ghost predicate ProperEntry(e: Entry)
  {
    && Plain(e.address)
    && (e.display.Bare? ==> forall i :: 0 <= i < |e.address| ==> Ordinary(e.address[i]) && e.address[i] != SPACE)
    && (e.display.Words? ==> forall i :: 0 <= i < |e.display.words| ==> Ordinary(e.display.words[i]))
  }

  /** `part` stands in s at a place. */
  ghost predicate Stands(s: seq<byte>, at: nat, part: seq<byte>)
  {
    at + |part| <= |s| && s[at..at + |part|] == part
  }

  lemma StandsSplit(s: seq<byte>, at: nat, a: seq<byte>, b: seq<byte>)
    requires Stands(s, at, a + b)
    ensures Stands(s, at, a) && Stands(s, at + |a|, b)
  {
    assert s[at..at + |a|] == s[at..at + |a + b|][..|a|];
    assert s[at + |a|..at + |a| + |b|] == s[at..at + |a + b|][|a|..];
  }

  lemma StandsOne(s: seq<byte>, at: nat, ch: byte)
    requires Stands(s, at, [ch])
    ensures at < |s| && s[at] == ch
  {
    assert s[at..at + 1][0] == ch;
  }

  lemma QuotedOctet(s: seq<byte>, at: nat, ch: byte, text: seq<byte>)
    requires Stands(s, at, EscapeOctet(ch))
    ensures Quoted(s, at, text) == Quoted(s, at + |EscapeOctet(ch)|, text + [ch])
  {
    if ch == QUOTE || ch == BACKSLASH {
      StandsSplit(s, at, [BACKSLASH], [ch]);
      StandsOne(s, at, BACKSLASH);
      StandsOne(s, at + 1, ch);
    } else {
      StandsOne(s, at, ch);
    }
  }

  type QuoteReader = (nat, seq<byte>) -> Option<(seq<byte>, nat)>

  ghost predicate OctetRead(read: QuoteReader, s: seq<byte>, at: nat, ch: byte, text: seq<byte>)
  {
    Stands(s, at, EscapeOctet(ch)) ==> read(at, text) == read(at + |EscapeOctet(ch)|, text + [ch])
  }

  lemma {:induction false} ReadEscaped(read: QuoteReader, s: seq<byte>, at: nat, name: seq<byte>, text: seq<byte>)
    requires forall at, ch, text :: OctetRead(read, s, at, ch, text)
    requires Stands(s, at, Escape(name))
    ensures read(at, text) == read(at + |Escape(name)|, text + name)
    decreases |name|
  {
    if name == [] {
      assert text + name == text;
    } else {
      var first := EscapeOctet(name[0]);
      StandsSplit(s, at, first, Escape(name[1..]));
      assert OctetRead(read, s, at, name[0], text);
      ReadEscaped(read, s, at + |first|, name[1..], text + [name[0]]);
      assert text + [name[0]] + name[1..] == text + name;
    }
  }

  ghost function QuoteReaderOf(s: seq<byte>): QuoteReader
  {
    (at: nat, text: seq<byte>) => Quoted(s, at, text)
  }

  lemma QuotedRead(s: seq<byte>, at: nat, ch: byte, text: seq<byte>)
    ensures OctetRead(QuoteReaderOf(s), s, at, ch, text)
  {
    if Stands(s, at, EscapeOctet(ch)) {
      QuotedOctet(s, at, ch, text);
    }
  }

  lemma QuotedEnd(s: seq<byte>, at: nat, text: seq<byte>)
    requires Stands(s, at, [QUOTE])
    ensures QuoteReaderOf(s)(at, text) == Some((text, at + 1))
  {
    StandsOne(s, at, QUOTE);
  }

  lemma QuotedName(s: seq<byte>, at: nat, name: seq<byte>, text: seq<byte>)
    requires Stands(s, at, Escape(name)) && Stands(s, at + |Escape(name)|, [QUOTE])
    ensures QuoteReaderOf(s)(at, text) == Some((text + name, at + |Escape(name)| + 1))
  {
    var read := QuoteReaderOf(s);
    forall at, ch, text ensures OctetRead(read, s, at, ch, text) { QuotedRead(s, at, ch, text); }
    ReadEscaped(read, s, at, name, text);
    QuotedEnd(s, at + |Escape(name)|, text + name);
  }

  lemma {:induction false} BracketedText(s: seq<byte>, at: nat, inner: seq<byte>, text: seq<byte>)
    requires GREATER !in inner && Stands(s, at, inner) && Stands(s, at + |inner|, [GREATER])
    ensures Bracketed(s, at, text) == Some((text + inner, at + |inner| + 1))
    decreases |inner|
  {
    if inner == [] {
      StandsOne(s, at, GREATER);
      assert text + inner == text;
    } else {
      assert inner == [inner[0]] + inner[1..];
      StandsSplit(s, at, [inner[0]], inner[1..]);
      StandsOne(s, at, inner[0]);
      BracketedText(s, at + 1, inner[1..], text + [inner[0]]);
      assert text + [inner[0]] + inner[1..] == text + inner;
    }
  }

  lemma {:induction false} IndexOfFirst(a: seq<byte>, ch: byte, b: seq<byte>)
    requires ch !in a
    ensures IndexOf(a + [ch] + b, ch) == Some(|a|)
  {
    if a != [] {
      IndexOfFirst(a[1..], ch, b);
      assert (a + [ch] + b)[1..] == a[1..] + [ch] + b;
    }
  }

  lemma {:induction false} CStringWhole(s: seq<byte>)
    requires 0 !in s
    ensures Proto.CString(s) == s
  {
    if s != [] {
      CStringWhole(s[1..]);
    }
  }

  lemma ProcessPlain<A>(take: Taker<A>, found: seq<A>, address: seq<byte>)
    requires Plain(address)
    ensures Process(take, found, Mailbox(address)) ==
      match take(found, address) case None => None case Some(a) => Some(found + [a])
  {
    IndexOfFirst(address, AT, DOMAIN);
    var text := Mailbox(address);
    assert text[..|address|] == address && text[|address| + 1..] == DOMAIN;
    CStringWhole(address);
  }

  // What reading from a place on gives is a function of the place and the state; the
  // steps are stated of any such function, and of any way to write the parts.

  type Reader<!A> = (nat, Scan<A>) -> Option<seq<A>>
  type Writer<!E> = E -> seq<byte>

  ghost function ReaderOf<A>(take: Taker<A>, s: seq<byte>): Reader<A>
  {
    (at: nat, st: Scan<A>) => Parse(take, s, at, st)
  }

  lemma ReadTurn<A>(take: Taker<A>, s: seq<byte>, at: nat, st: Scan<A>)
    requires at < |s|
    ensures var read, t := ReaderOf(take, s), Turn(take, s, at, st);
      read(at, st) == if t.None? then None else read(t.value.1, t.value.0)
  {
    assert ReaderOf(take, s)(at, st) == Parse(take, s, at, st);
  }

  /** A name before brackets only changes the text, which the brackets replace. */
  ghost predicate NameRead<A>(read: Reader<A>, s: seq<byte>, at: nat, part: seq<byte>, st: Scan<A>)
  {
    exists text :: read(at, st) == read(at + |part|, st.(text := text))
  }

  lemma QuotedParts(s: seq<byte>, at: nat, name: seq<byte>)
    requires Stands(s, at, QuotedPart(name))
    ensures var n := |Escape(name)|;
      && at + 2 + n < |s| && s[at] == QUOTE && s[at + 2 + n] == SPACE
      && Stands(s, at + 1, Escape(name)) && Stands(s, at + 1 + n, [QUOTE])
      && |QuotedPart(name)| == n + 3
  {
    var n := |Escape(name)|;
    StandsSplit(s, at, [QUOTE], Escape(name) + ([QUOTE] + [SPACE]));
    StandsSplit(s, at + 1, Escape(name), [QUOTE] + [SPACE]);
    StandsSplit(s, at + 1 + n, [QUOTE], [SPACE]);
    StandsOne(s, at, QUOTE);
    StandsOne(s, at + 2 + n, SPACE);
  }

  lemma ReadQuoted<A>(take: Taker<A>, s: seq<byte>, at: nat, name: seq<byte>, st: Scan<A>)
    requires Stands(s, at, QuotedPart(name))
    ensures NameRead(ReaderOf(take, s), s, at, QuotedPart(name), st)
  {
    var n, after := |Escape(name)|, st.(text := st.text + name);
    QuotedParts(s, at, name);
    QuotedName(s, at + 1, name, st.text);
    ReadTurn(take, s, at, st);
    ReadTurn(take, s, at + 2 + n, after);
  }

  /** What is collected of a run of ordinary octets. */
  function Collected(part: seq<byte>): seq<byte>
  {
    if part == [] then [] else (if part[0] == SPACE then [] else [part[0]]) + Collected(part[1..])
  }

  lemma {:induction false} CollectedSame(part: seq<byte>)
    requires SPACE !in part
    ensures Collected(part) == part
  {
    if part != [] {
      CollectedSame(part[1..]);
      assert part == [part[0]] + part[1..];
    }
  }

  lemma {:induction false} ReadOrdinary<A>(take: Taker<A>, s: seq<byte>, at: nat, part: seq<byte>, st: Scan<A>)
    requires Stands(s, at, part) && forall i :: 0 <= i < |part| ==> Ordinary(part[i])
    ensures OrdinaryRead(ReaderOf(take, s), s, at, part, st)
    decreases |part|
  {
    if part == [] {
      assert st.text + Collected(part) == st.text;
    } else {
      assert part == [part[0]] + part[1..];
      StandsSplit(s, at, [part[0]], part[1..]);
      StandsOne(s, at, part[0]);
      ReadTurn(take, s, at, st);
      var next := if part[0] == SPACE then st else st.(text := st.text + [part[0]]);
      ReadOrdinary(take, s, at + 1, part[1..], next);
      assert next.text + Collected(part[1..]) == st.text + Collected(part);
    }
  }

  /** Whatever stands before it, the address ends up with the caller by the time the entry
      ends, or is refused. */
  ghost predicate Offered<A>(read: Reader<A>, end: Ender<A>, take: Taker<A>, text: seq<byte>, at: nat,
                             address: seq<byte>, found: seq<A>, st: Scan<A>)
  {
    (read(at, st).None? && take(found, address).None?) ||
    exists rest, had :: Leaves(read, end, take, text, at, address, found, st, rest, had)
  }

  /** What has been collected after an entry, by whose end its address is taken. */
  function AfterEntry<A>(take: Taker<A>, address: seq<byte>, found: seq<A>, rest: seq<byte>, had: bool): Scan<A>
  {
    Scan(rest, had, if had && take(found, address).Some? then found + [take(found, address).value] else found)
  }

  ghost predicate Leaves<A>(read: Reader<A>, end: Ender<A>, take: Taker<A>, text: seq<byte>, at: nat,
                            address: seq<byte>, found: seq<A>, st: Scan<A>, rest: seq<byte>, had: bool)
  {
    var next := AfterEntry(take, address, found, rest, had);
    read(at, st) == read(at + |text|, next) && end(next) == TakenOne(take, found, address)
  }

  function TakenOne<A>(take: Taker<A>, found: seq<A>, address: seq<byte>): Option<seq<A>>
  {
    match take(found, address)
    case None => None
    case Some(a) => Some(found + [a])
  }

  type Ender<!A> = Scan<A> -> Option<seq<A>>

  ghost function EnderOf<A>(take: Taker<A>): Ender<A>
  {
    (st: Scan<A>) => EndAddress(take, st)
  }

  lemma BracketParts(s: seq<byte>, at: nat, address: seq<byte>)
    requires Stands(s, at, BracketPart(address))
    ensures var inner := Mailbox(address);
      && at < |s| && s[at] == LESS && Stands(s, at + 1, inner) && Stands(s, at + 1 + |inner|, [GREATER])
      && |BracketPart(address)| == |inner| + 2
  {
    var inner := Mailbox(address);
    StandsSplit(s, at, [LESS], inner + [GREATER]);
    StandsSplit(s, at + 1, inner, [GREATER]);
    StandsOne(s, at, LESS);
  }

  lemma InnerRead(s: seq<byte>, at: nat, inner: seq<byte>)
    requires GREATER !in inner && Stands(s, at, inner) && Stands(s, at + |inner|, [GREATER])
    ensures Bracketed(s, at, []) == Some((inner, at + |inner| + 1))
  {
    BracketedText(s, at, inner, []);
    assert [] + inner == inner;
  }

  lemma BracketTurnIs<A>(take: Taker<A>, s: seq<byte>, at: nat, inner: seq<byte>, next: nat, st: Scan<A>)
    requires at < |s| && !st.had && Bracketed(s, at + 1, []) == Some((inner, next))
    ensures BracketTurn(take, s, at, st) ==
      match Process(take, st.found, inner)
      case None => None
      case Some(found) => Some((Scan(inner, true, found), next))
  {
  }

  lemma BracketRead<A>(take: Taker<A>, s: seq<byte>, at: nat, inner: seq<byte>, st: Scan<A>)
    requires at < |s| && !st.had && GREATER !in inner
    requires Stands(s, at + 1, inner) && Stands(s, at + 1 + |inner|, [GREATER])
    ensures BracketTurn(take, s, at, st) ==
      match Process(take, st.found, inner)
      case None => None
      case Some(found) => Some((Scan(inner, true, found), at + |inner| + 2))
  {
    InnerRead(s, at + 1, inner);
    BracketTurnIs(take, s, at, inner, at + |inner| + 2, st);
  }

  lemma LessTurn<A>(take: Taker<A>, s: seq<byte>, at: nat, st: Scan<A>)
    requires at < |s| && s[at] == LESS
    ensures Turn(take, s, at, st) == BracketTurn(take, s, at, st)
  {
  }

  lemma AddressTurn<A>(take: Taker<A>, s: seq<byte>, at: nat, address: seq<byte>, st: Scan<A>)
    requires Stands(s, at, BracketPart(address)) && Plain(address) && !st.had && at < |s|
    ensures Turn(take, s, at, st) ==
      match take(st.found, address)
      case None => None
      case Some(a) => Some((Scan(Mailbox(address), true, st.found + [a]), at + |BracketPart(address)|))
  {
    BracketParts(s, at, address);
    BracketRead(take, s, at, Mailbox(address), st);
    LessTurn(take, s, at, st);
    ProcessPlain(take, st.found, address);
  }

  lemma ReadBracket<A>(take: Taker<A>, s: seq<byte>, at: nat, address: seq<byte>, st: Scan<A>)
    requires Stands(s, at, BracketPart(address)) && Plain(address) && !st.had
    ensures Offered(ReaderOf(take, s), EnderOf(take), take, BracketPart(address), at, address, st.found, st)
  {
    BracketParts(s, at, address);
    AddressTurn(take, s, at, address, st);
    ReadTurn(take, s, at, st);
    if take(st.found, address).Some? {
      assert Leaves(ReaderOf(take, s), EnderOf(take), take, BracketPart(address), at, address, st.found, st,
                    Mailbox(address), true);
    }
  }

  ghost predicate OrdinaryRead<A>(read: Reader<A>, s: seq<byte>, at: nat, part: seq<byte>, st: Scan<A>)
  {
    read(at, st) == read(at + |part|, st.(text := st.text + Collected(part)))
  }

  /** Without brackets it is offered when the entry ends. */
  lemma BareOffered<A>(read: Reader<A>, end: Ender<A>, take: Taker<A>, s: seq<byte>, at: nat, address: seq<byte>,
                       found: seq<A>, st: Scan<A>)
    requires OrdinaryRead(read, s, at, Mailbox(address), st) && st == Scan([], false, found)
    requires Collected(Mailbox(address)) == Mailbox(address)
    requires end(AfterEntry(take, address, found, Mailbox(address), false)) == TakenOne(take, found, address)
    ensures Offered(read, end, take, Mailbox(address), at, address, found, st)
  {
    var text := Mailbox(address);
    assert [] + text == text;
    assert Leaves(read, end, take, text, at, address, found, st, text, false);
  }

  lemma ReadBare<A>(take: Taker<A>, s: seq<byte>, at: nat, e: Entry, st: Scan<A>)
    requires e.display.Bare? && ProperEntry(e) && Stands(s, at, Mailbox(e.address)) && st == Scan([], false, st.found)
    ensures Offered(ReaderOf(take, s), EnderOf(take), take, Mailbox(e.address), at, e.address, st.found, st)
  {
    MailboxOrdinary(e.address);
    CollectedSame(Mailbox(e.address));
    ReadOrdinary(take, s, at, Mailbox(e.address), st);
    BareEnds(take, e.address, st.found);
    BareOffered(ReaderOf(take, s), EnderOf(take), take, s, at, e.address, st.found, st);
  }

  lemma MailboxOrdinary(address: seq<byte>)
    requires forall i :: 0 <= i < |address| ==> Ordinary(address[i]) && address[i] != SPACE
    ensures forall i :: 0 <= i < |Mailbox(address)| ==> Ordinary(Mailbox(address)[i])
    ensures SPACE !in Mailbox(address)
  {
    var rest := [AT] + DOMAIN;
    assert forall i :: 0 <= i < |rest| ==> Ordinary(rest[i]) && rest[i] != SPACE;
    assert Mailbox(address) == address + rest;
  }

  lemma BareEnds<A>(take: Taker<A>, address: seq<byte>, found: seq<A>)
    requires Plain(address)
    ensures EnderOf(take)(AfterEntry(take, address, found, Mailbox(address), false)) == TakenOne(take, found, address)
  {
    ProcessPlain(take, found, address);
  }

  lemma ReadDisplay<A>(take: Taker<A>, s: seq<byte>, at: nat, d: Display, st: Scan<A>)
    requires Stands(s, at, NamePart(d)) && (d.Words? ==> forall i :: 0 <= i < |d.words| ==> Ordinary(d.words[i]))
    ensures NameRead(ReaderOf(take, s), s, at, NamePart(d), st)
  {
    match d
    case Bare => assert st == st.(text := st.text);
    case InQuotes(name) => ReadQuoted(take, s, at, name, st);
    case Words(words) =>
      ReadOrdinary(take, s, at, words, st);
      OrdinaryIsName(ReaderOf(take, s), s, at, words, st);
  }

  lemma OrdinaryIsName<A>(read: Reader<A>, s: seq<byte>, at: nat, part: seq<byte>, st: Scan<A>)
    requires OrdinaryRead(read, s, at, part, st)
    ensures NameRead(read, s, at, part, st)
  {
  }

  ghost predicate BracketsOffered<A>(read: Reader<A>, end: Ender<A>, take: Taker<A>, at: nat, address: seq<byte>,
                                     st: Scan<A>)
  {
    !st.had ==> Offered(read, end, take, BracketPart(address), at, address, st.found, st)
  }

  lemma NamedOffered<A>(read: Reader<A>, end: Ender<A>, take: Taker<A>, s: seq<byte>, at: nat, name: seq<byte>,
                        next: nat, address: seq<byte>, st: Scan<A>)
    requires NameRead(read, s, at, name, st) && !st.had && next == at + |name|
    requires forall st: Scan<A> :: BracketsOffered(read, end, take, next, address, st)
    ensures Offered(read, end, take, name + BracketPart(address), at, address, st.found, st)
  {
    var text :| read(at, st) == read(at + |name|, st.(text := text));
    assert BracketsOffered(read, end, take, next, address, st.(text := text));
    OfferedAfter(read, end, take, name, BracketPart(address), at, address, st.found, st, st.(text := text));
  }

  lemma AllBrackets<A>(take: Taker<A>, s: seq<byte>, at: nat, address: seq<byte>)
    requires Stands(s, at, BracketPart(address)) && Plain(address)
    ensures forall st: Scan<A> :: BracketsOffered(ReaderOf(take, s), EnderOf(take), take, at, address, st)
  {
    forall st: Scan<A> ensures BracketsOffered(ReaderOf(take, s), EnderOf(take), take, at, address, st) {
      if !st.had {
        ReadBracket(take, s, at, address, st);
      }
    }
  }

  /** Anything that is read as a name, and an address in brackets behind it. */
  lemma NameThenBrackets<A>(take: Taker<A>, s: seq<byte>, at: nat, name: seq<byte>, address: seq<byte>, st: Scan<A>)
    requires NameRead(ReaderOf(take, s), s, at, name, st) && !st.had
    requires Plain(address) && Stands(s, at + |name|, BracketPart(address))
    ensures Offered(ReaderOf(take, s), EnderOf(take), take, name + BracketPart(address), at, address, st.found, st)
  {
    AllBrackets(take, s, at + |name|, address);
    NamedOffered(ReaderOf(take, s), EnderOf(take), take, s, at, name, at + |name|, address, st);
  }

  lemma ReadNamed<A>(take: Taker<A>, s: seq<byte>, at: nat, d: Display, address: seq<byte>, st: Scan<A>)
    requires d.Words? ==> forall i :: 0 <= i < |d.words| ==> Ordinary(d.words[i])
    requires Plain(address) && Stands(s, at, NamePart(d) + BracketPart(address)) && !st.had
    ensures Offered(ReaderOf(take, s), EnderOf(take), take, NamePart(d) + BracketPart(address), at, address, st.found, st)
  {
    StandsSplit(s, at, NamePart(d), BracketPart(address));
    ReadDisplay(take, s, at, d, st);
    NameThenBrackets(take, s, at, NamePart(d), address, st);
  }

  /** An entry is offered as its part behind the name is. */
  lemma OfferedAfter<A>(read: Reader<A>, end: Ender<A>, take: Taker<A>, name: seq<byte>, part: seq<byte>, at: nat,
                        address: seq<byte>, found: seq<A>, st: Scan<A>, named: Scan<A>)
    requires read(at, st) == read(at + |name|, named)
    requires Offered(read, end, take, part, at + |name|, address, found, named)
    ensures Offered(read, end, take, name + part, at, address, found, st)
  {
    if !(read(at, st).None? && take(found, address).None?) {
      var rest, had :| Leaves(read, end, take, part, at + |name|, address, found, named, rest, had);
      assert Leaves(read, end, take, name + part, at, address, found, st, rest, had);
    }
  }

  ghost predicate EntryRead<A>(read: Reader<A>, end: Ender<A>, take: Taker<A>, write: Writer<Entry>, s: seq<byte>,
                               at: nat, e: Entry, found: seq<A>)
  {
    Stands(s, at, write(e)) && ProperEntry(e) ==>
      Offered(read, end, take, write(e), at, e.address, found, Scan([], false, found))
  }

  /** A written entry is read as one address, in whatever form it is written. */
  lemma ReadEntry<A>(take: Taker<A>, s: seq<byte>, at: nat, e: Entry, found: seq<A>)
    ensures EntryRead(ReaderOf(take, s), EnderOf(take), take, Written, s, at, e, found)
  {
    if Stands(s, at, Written(e)) && ProperEntry(e) {
      if e.display.Bare? {
        ReadBare(take, s, at, e, Scan([], false, found));
      } else {
        ReadNamed(take, s, at, e.display, e.address, Scan([], false, found));
      }
    }
  }

  ghost predicate SeparatorRead<A>(read: Reader<A>, end: Ender<A>, s: seq<byte>, at: nat, st: Scan<A>)
  {
    Stands(s, at, [COMMA, SPACE]) ==>
      read(at, st) == match end(st) case None => None case Some(found) => read(at + 2, Scan([], false, found))
  }

  lemma ReadSeparator<A>(take: Taker<A>, s: seq<byte>, at: nat, st: Scan<A>)
    ensures SeparatorRead(ReaderOf(take, s), EnderOf(take), s, at, st)
  {
    if Stands(s, at, [COMMA, SPACE]) {
      StandsSplit(s, at, [COMMA], [SPACE]);
      StandsOne(s, at, COMMA);
      StandsOne(s, at + 1, SPACE);
      ReadTurn(take, s, at, st);
      match EndAddress(take, st)
      case None =>
      case Some(found) => ReadTurn(take, s, at + 1, Scan([], false, found));
    }
  }

  /** At the end the last entry ends. */
  ghost predicate EndRead<A>(read: Reader<A>, end: Ender<A>, s: seq<byte>, st: Scan<A>)
  {
    read(|s|, st) == end(st)
  }

  lemma {:induction false} ReadList<A>(read: Reader<A>, end: Ender<A>, take: Taker<A>, write: Writer<Entry>,
                                       s: seq<byte>, at: nat, entries: seq<Entry>, found: seq<A>)
    requires forall at, e, found :: EntryRead(read, end, take, write, s, at, e, found)
    requires forall at, st :: SeparatorRead(read, end, s, at, st)
    requires forall st :: EndRead(read, end, s, st)
    requires entries != [] && (forall e :: e in entries ==> ProperEntry(e))
    requires Stands(s, at, WrittenList(write, entries)) && at + |WrittenList(write, entries)| == |s|
    ensures read(at, Scan([], false, found)) == Taken(take, found, entries)
    decreases |entries|, 1
  {
    var e, more, st := entries[0], entries[1..], Scan([], false, found);
    assert EntryRead(read, end, take, write, s, at, e, found);
    var next := at + |write(e)|;
    if |entries| > 1 {
      var rest := WrittenList(write, more);
      assert WrittenList(write, entries) == write(e) + ([COMMA, SPACE] + rest);
      StandsSplit(s, at, write(e), [COMMA, SPACE] + rest);
      StandsSplit(s, next, [COMMA, SPACE], rest);
    }
    if !(read(at, st).None? && take(found, e.address).None?) {
      var rest, had :| Leaves(read, end, take, write(e), at, e.address, found, st, rest, had);
      var after := AfterEntry(take, e.address, found, rest, had);
      ReadMore(read, end, take, write, s, at, entries, found, after);
    }
  }

  /** The rest of the list, once the first entry has been read. */
  lemma {:induction false} ReadMore<A>(read: Reader<A>, end: Ender<A>, take: Taker<A>, write: Writer<Entry>,
                                       s: seq<byte>, at: nat, entries: seq<Entry>, found: seq<A>, after: Scan<A>)
    requires forall at, e, found :: EntryRead(read, end, take, write, s, at, e, found)
    requires forall at, st :: SeparatorRead(read, end, s, at, st)
    requires forall st :: EndRead(read, end, s, st)
    requires entries != [] && (forall e :: e in entries ==> ProperEntry(e))
    requires at + |WrittenList(write, entries)| == |s|
    requires |entries| > 1 ==>
      var next := at + |write(entries[0])|;
      Stands(s, next, [COMMA, SPACE]) && Stands(s, next + 2, WrittenList(write, entries[1..]))
    requires end(after) == TakenOne(take, found, entries[0].address)
    ensures read(at + |write(entries[0])|, after) == Taken(take, found, entries)
    decreases |entries|, 0
  {
    var next := at + |write(entries[0])|;
    if |entries| > 1 {
      assert SeparatorRead(read, end, s, next, after);
      if end(after).Some? {
        ReadList(read, end, take, write, s, next + 2, entries[1..], end(after).value);
      }
    } else {
      assert EndRead(read, end, s, after);
      assert entries[1..] == [];
    }
  }

  /** Every written list offers exactly its addresses, in order, whatever form its entries
      have and whatever the display names hold. */
  lemma ListRoundTrip<A>(take: Taker<A>, entries: seq<Entry>)
    requires entries != [] && (forall e :: e in entries ==> ProperEntry(e))
    ensures ParseList(take, WrittenList(Written, entries)) == Taken(take, [], entries)
  {
    var s := WrittenList(Written, entries);
    var read, end := ReaderOf(take, s), EnderOf(take);
    forall at, e, found ensures EntryRead(read, end, take, Written, s, at, e, found) { ReadEntry(take, s, at, e, found); }
    forall at, st ensures SeparatorRead(read, end, s, at, st) { ReadSeparator(take, s, at, st); }
    ReadList(read, end, take, Written, s, 0, entries, []);
  }
}
