/** The file of outgoing messages: what is written and what is loaded from it. */
module Outgoings {
  import opened Bytes
  import opened Proto
  import Base58
  import Addresses
  import KeyValue
  import TextLines

  const MAX_ACKDATA_LENGTH: nat := 44
  const INT_MAX: int := 0x7fff_ffff
  const INT64_MAX: int := 0x7fff_ffff_ffff_ffff

  datatype Outgoing = Outgoing(
    from: Addresses.Address,
    to: Addresses.Address,
    ackdata: seq<byte>,
    contentId: int,
    contentEncoding: int,
    lastGetpubkeySendTime: int,
    lastMsgSendTime: int)

  /** The range of the C types of the fields. */
  predicate Typed(o: Outgoing)
  {
    && Addresses.Proper(o.from) && Addresses.Proper(o.to) && |o.ackdata| == ACKDATA_SIZE
    && 0 <= o.contentId < TWO_64
    && -0x8000_0000 <= o.contentEncoding <= INT_MAX
    && KeyValue.INT64_MIN <= o.lastGetpubkeySendTime <= INT64_MAX
    && KeyValue.INT64_MIN <= o.lastMsgSendTime <= INT64_MAX
  }

  datatype Field =
    FromAddress | ToAddress | Ackdata | ContentId | ContentEncoding | LastGetpubkeySendTime | LastMsgSendTime

  function Name(f: Field): seq<byte>
  {
    match f
    case FromAddress => [102, 114, 111, 109, 97, 100, 100, 114, 101, 115, 115] // "fromaddress"
    case ToAddress => [116, 111, 97, 100, 100, 114, 101, 115, 115] // "toaddress"
    case Ackdata => [97, 99, 107, 100, 97, 116, 97] // "ackdata"
    case ContentId => [99, 111, 110, 116, 101, 110, 116, 105, 100] // "contentid"
    case ContentEncoding => [99, 111, 110, 116, 101, 110, 116, 101, 110, 99, 111, 100, 105, 110, 103] // "contentencoding"
    case LastGetpubkeySendTime => [108, 97, 115, 116, 103, 101, 116, 112, 117, 98, 107, 101, 121, 115, 101, 110, 100, 116, 105, 109, 101] // "lastgetpubkeysendtime"
    case LastMsgSendTime => [108, 97, 115, 116, 109, 115, 103, 115, 101, 110, 100, 116, 105, 109, 101] // "lastmsgsendtime"
  }

  function FieldOf(key: seq<byte>): Option<Field>
  {
    if key == Name(FromAddress) then Some(FromAddress)
    else if key == Name(ToAddress) then Some(ToAddress)
    else if key == Name(Ackdata) then Some(Ackdata)
    else if key == Name(ContentId) then Some(ContentId)
    else if key == Name(ContentEncoding) then Some(ContentEncoding)
    else if key == Name(LastGetpubkeySendTime) then Some(LastGetpubkeySendTime)
    else if key == Name(LastMsgSendTime) then Some(LastMsgSendTime)
    else None
  }

  // ----------------------------------------------------------------- writing

  /** "message" */
  const MESSAGE: seq<byte> := [109, 101, 115, 115, 97, 103, 101]

  function Values(sha: seq<byte> -> seq<byte>, o: Outgoing): (r: seq<(Field, seq<byte>)>)
    requires IsSha512(sha)
  {
    [(FromAddress, Addresses.Encode(sha, o.from)),
     (ToAddress, Addresses.Encode(sha, o.to)),
     (Ackdata, Base58.Encode(o.ackdata)),
     (ContentId, KeyValue.Printed(o.contentId)),
     (ContentEncoding, KeyValue.Printed(o.contentEncoding)),
     (LastGetpubkeySendTime, KeyValue.Printed(o.lastGetpubkeySendTime)),
     (LastMsgSendTime, KeyValue.Printed(o.lastMsgSendTime))]
  }

  function LinesOf(values: seq<(Field, seq<byte>)>): seq<byte>
  {
    if values == [] then []
    else KeyValue.Line(Name(values[0].0), values[0].1) + LinesOf(values[1..])
  }

  function RecordText(values: seq<(Field, seq<byte>)>): seq<byte>
  {
    KeyValue.HeaderLine(MESSAGE) + (LinesOf(values) + [TextLines.LF])
  }

  function Written(sha: seq<byte> -> seq<byte>, o: Outgoing): seq<byte>
    requires IsSha512(sha)
  {
    RecordText(Values(sha, o))
  }

  function WrittenAll(sha: seq<byte> -> seq<byte>, list: seq<Outgoing>): seq<byte>
    requires IsSha512(sha)
  {
    if list == [] then [] else Written(sha, list[0]) + WrittenAll(sha, list[1..])
  }

  /** write_outgoing: the digits of the acknowledgement data fit their buffer. */
  method WriteOutgoing(sha: seq<byte> -> seq<byte>, o: Outgoing) returns (text: seq<byte>)
    requires IsSha512(sha) && Typed(o)
    ensures text == Written(sha, o)
  {
    var from := Addresses.EncodeAddress(sha, o.from);
    var to := Addresses.EncodeAddress(sha, o.to);
    var ackdata := Base58.EncodeInPlace(o.ackdata);
    Base58.AckdataDigits(o.ackdata);
    assert |ackdata| <= MAX_ACKDATA_LENGTH;
    var values := [
      (FromAddress, from), (ToAddress, to), (Ackdata, ackdata),
      (ContentId, KeyValue.Printed(o.contentId)),
      (ContentEncoding, KeyValue.Printed(o.contentEncoding)),
      (LastGetpubkeySendTime, KeyValue.Printed(o.lastGetpubkeySendTime)),
      (LastMsgSendTime, KeyValue.Printed(o.lastMsgSendTime))];
    text := RecordText(values);
  }

  // ----------------------------------------------------------------- loading

  /** The record being put together; the parts it has are those that were read. */
  datatype Partial = Partial(
    from: Option<Addresses.Address>,
    to: Option<Addresses.Address>,
    ackdata: Option<seq<byte>>,
    contentId: Option<int>,
    contentEncoding: int,
    lastGetpubkeySendTime: int,
    lastMsgSendTime: int)

  const RESET := Partial(None, None, None, None, 1, 0, 0)

  function OrElse<T>(a: Option<T>, b: Option<T>): Option<T>
  {
    if a.Some? then a else b
  }

  function OrInt(a: Option<int>, b: int): int
  {
    if a.Some? then a.value else b
  }

  /** Assigning a 64-bit number to a C int. */
  function ToInt(n: Option<int>): Option<int>
  {
    if n.None? then None else Some((n.value + TWO_31) % TWO_32 - TWO_31)
  }

  /** Assigning it to an unsigned number of 64 bits. */
  function ToU64(n: Option<int>): Option<int>
  {
    if n.None? then None else Some(n.value % TWO_64)
  }

  /** parse_ackdata: the octets are moved to the end and the front is cleared. */
  function ParseAckdata(value: seq<byte>): Option<seq<byte>>
  {
    Base58.DecodeSize(value, ACKDATA_SIZE);
    match Base58.Decode(value, ACKDATA_SIZE)
    case None => None
    case Some(got) => Some(Zeros(ACKDATA_SIZE - |got|) + got)
  }

  /** A value that cannot be read leaves the record as it was. */
  function Process(sha: seq<byte> -> seq<byte>, p: Partial, f: Field, value: seq<byte>): Partial
    requires IsSha512(sha)
  {
    match f
    case FromAddress => p.(from := OrElse(Addresses.Decode(sha, value), p.from))
    case ToAddress => p.(to := OrElse(Addresses.Decode(sha, value), p.to))
    case Ackdata => p.(ackdata := OrElse(ParseAckdata(value), p.ackdata))
    case ContentId => p.(contentId := OrElse(ToU64(KeyValue.ParseInt(value, INT_MAX)), p.contentId))
    case ContentEncoding =>
      p.(contentEncoding := OrInt(ToInt(KeyValue.ParseInt(value, INT_MAX)), p.contentEncoding))
    case LastGetpubkeySendTime =>
      p.(lastGetpubkeySendTime := OrInt(KeyValue.ParseInt(value, INT64_MAX), p.lastGetpubkeySendTime))
    case LastMsgSendTime =>
      p.(lastMsgSendTime := OrInt(KeyValue.ParseInt(value, INT64_MAX), p.lastMsgSendTime))
  }

  /** A record is reported only if it is complete. */
  function Flush(p: Partial): seq<Outgoing>
  {
    if p.from.Some? && p.to.Some? && p.ackdata.Some? && p.contentId.Some? then
      [Outgoing(p.from.value, p.to.value, p.ackdata.value, p.contentId.value,
                p.contentEncoding, p.lastGetpubkeySendTime, p.lastMsgSendTime)]
    else []
  }

  function Take(sha: seq<byte> -> seq<byte>, p: Partial, e: KeyValue.Event): (Partial, seq<Outgoing>)
    requires IsSha512(sha)
  {
    match e
    case Header(_) => (RESET, Flush(p))
    case Property(key, value) =>
      if FieldOf(key).None? then (p, []) else (Process(sha, p, FieldOf(key).value, value), [])
  }

  function TakeAll(sha: seq<byte> -> seq<byte>, p: Partial, events: seq<KeyValue.Event>): seq<Outgoing>
    requires IsSha512(sha)
    decreases |events|
  {
    if events == [] then Flush(p)
    else
      var r := Take(sha, p, events[0]);
      r.1 + TakeAll(sha, r.0, events[1..])
  }

  function Loaded(sha: seq<byte> -> seq<byte>, file: seq<byte>): seq<Outgoing>
    requires IsSha512(sha)
  {
    TakeAll(sha, RESET, KeyValue.Events(file))
  }

  class Loader {
    const sha: seq<byte> -> seq<byte>
    var from: Option<Addresses.Address>
    var to: Option<Addresses.Address>
    var ackdata: Option<seq<byte>>
    var contentId: Option<int>
    var contentEncoding: int
    var lastGetpubkeySendTime: int
    var lastMsgSendTime: int
    var out: seq<Outgoing>

    function Abs(): Partial
      reads this
    {
      Partial(from, to, ackdata, contentId, contentEncoding, lastGetpubkeySendTime, lastMsgSendTime)
    }

    constructor (sha: seq<byte> -> seq<byte>)
      ensures Abs() == RESET && out == [] && this.sha == sha
    {
      this.sha := sha;
      from, to, ackdata, contentId := None, None, None, None;
      contentEncoding, lastGetpubkeySendTime, lastMsgSendTime := 1, 0, 0;
      out := [];
    }

    method FlushOutgoing()
      modifies this
      ensures Abs() == RESET && out == old(out) + Flush(old(Abs()))
    {
      if from.Some? && to.Some? && ackdata.Some? && contentId.Some? {
        out := out + [Outgoing(from.value, to.value, ackdata.value, contentId.value,
                               contentEncoding, lastGetpubkeySendTime, lastMsgSendTime)];
      } else {
        assert out + [] == out;
      }
      from, to, ackdata, contentId := None, None, None, None;
      contentEncoding, lastGetpubkeySendTime, lastMsgSendTime := 1, 0, 0;
    }

    method ProcessProperty(f: Field, value: seq<byte>)
      requires IsSha512(sha)
      modifies this
      ensures Abs() == Process(sha, old(Abs()), f, value) && out == old(out)
    {
      match f
      case FromAddress =>
        var a := Addresses.DecodeAddress(sha, value);
        if a.Some? {
          from := a;
        }
      case ToAddress =>
        var a := Addresses.DecodeAddress(sha, value);
        if a.Some? {
          to := a;
        }
      case Ackdata =>
        var got := Base58.DecodeDigits(value, ACKDATA_SIZE);
        if got.Some? {
          Base58.DecodeSize(value, ACKDATA_SIZE);
          ackdata := Some(Zeros(ACKDATA_SIZE - |got.value|) + got.value);
        }
      case ContentId =>
        var n := KeyValue.ParseInt(value, INT_MAX);
        if n.Some? {
          contentId := Some(n.value % TWO_64);
        }
      case ContentEncoding =>
        var n := KeyValue.ParseInt(value, INT_MAX);
        if n.Some? {
          contentEncoding := (n.value + TWO_31) % TWO_32 - TWO_31;
        }
      case LastGetpubkeySendTime =>
        var n := KeyValue.ParseInt(value, INT64_MAX);
        if n.Some? {
          lastGetpubkeySendTime := n.value;
        }
      case LastMsgSendTime =>
        var n := KeyValue.ParseInt(value, INT64_MAX);
        if n.Some? {
          lastMsgSendTime := n.value;
        }
    }

    /** key_value_event_cb */
    method TakeEvent(e: KeyValue.Event)
      requires IsSha512(sha)
      modifies this
      ensures (Abs(), out) == (Take(sha, old(Abs()), e).0, old(out) + Take(sha, old(Abs()), e).1)
    {
      ghost var none: seq<Outgoing> := [];
      assert out + none == out;
      match e
      case Header(_) => FlushOutgoing();
      case Property(key, value) =>
        var f := FieldOf(key);
        if f.Some? {
          ProcessProperty(f.value, value);
        }
    }
  }

  lemma TakeStep(sha: seq<byte> -> seq<byte>, p: Partial, out: seq<Outgoing>, events: seq<KeyValue.Event>, i: nat)
    requires IsSha512(sha) && i < |events|
    ensures var r := Take(sha, p, events[i]);
      out + TakeAll(sha, p, events[i..]) == out + r.1 + TakeAll(sha, r.0, events[i + 1..])
  {
    assert events[i..][0] == events[i] && events[i..][1..] == events[i + 1..];
    var r := Take(sha, p, events[i]);
    assert out + (r.1 + TakeAll(sha, r.0, events[i + 1..])) == out + r.1 + TakeAll(sha, r.0, events[i + 1..]);
  }

  /** ntb_load_outgoings */
  method LoadOutgoings(sha: seq<byte> -> seq<byte>, file: seq<byte>) returns (list: seq<Outgoing>)
    requires IsSha512(sha)
    ensures list == Loaded(sha, file)
  {
    var events := KeyValue.Load(file);
    var data := new Loader(sha);
    var i := 0;
    assert events[0..] == events && [] + TakeAll(sha, RESET, events) == TakeAll(sha, RESET, events);
    while i < |events|
      invariant i <= |events| && fresh(data) && data.sha == sha
      invariant Loaded(sha, file) == data.out + TakeAll(sha, data.Abs(), events[i..])
    {
      TakeStep(sha, data.Abs(), data.out, events, i);
      data.TakeEvent(events[i]);
      i := i + 1;
    }
    data.FlushOutgoing();
    return data.out;
  }

  // -------------------------------------------------------------- round trip

  predicate Letters(s: seq<byte>)
  {
    s != [] && forall i :: 0 <= i < |s| ==> 97 <= s[i] <= 122
  }

  lemma LettersProper(s: seq<byte>)
    requires Letters(s)
    ensures KeyValue.ProperKey(s)
  {
  }

  lemma NameLetters(f: Field)
    ensures Letters(Name(f))
  {
    LongNames();
    match f
    case FromAddress =>
    case ToAddress =>
    case Ackdata =>
    case ContentId =>
    case ContentEncoding =>
    case LastGetpubkeySendTime =>
    case LastMsgSendTime =>
  }

  lemma LongNames()
    ensures Letters(Name(LastGetpubkeySendTime))
    ensures Letters(Name(LastMsgSendTime))
    ensures Letters(Name(ContentEncoding))
  {
  }

  lemma NameProper(f: Field)
    ensures KeyValue.ProperKey(Name(f))
  {
    NameLetters(f);
    LettersProper(Name(f));
  }

  lemma NameRead(f: Field)
    ensures FieldOf(Name(f)) == Some(f)
  {
    assert Name(ToAddress)[0] != Name(ContentId)[0];
    assert Name(ContentEncoding)[0] != Name(LastMsgSendTime)[0];
  }

  lemma DigitsProper(input: seq<byte>)
    ensures KeyValue.ProperValue(Base58.Encode(input))
  {
    Base58.EncodePlain(input);
  }

  lemma AddressProper(sha: seq<byte> -> seq<byte>, a: Addresses.Address)
    requires IsSha512(sha)
    ensures KeyValue.ProperValue(Addresses.Encode(sha, a))
  {
    Base58.EncodePlain(Addresses.Binary(sha, a));
  }

  ghost predicate ProperValues(values: seq<(Field, seq<byte>)>)
  {
    forall i :: 0 <= i < |values| ==> KeyValue.ProperValue(values[i].1)
  }

  lemma ValuesProper(sha: seq<byte> -> seq<byte>, o: Outgoing)
    requires IsSha512(sha)
    ensures ProperValues(Values(sha, o))
  {
    AddressProper(sha, o.from);
    AddressProper(sha, o.to);
    DigitsProper(o.ackdata);
    KeyValue.PrintedProper(o.contentId);
    KeyValue.PrintedProper(o.contentEncoding);
    KeyValue.PrintedProper(o.lastGetpubkeySendTime);
    KeyValue.PrintedProper(o.lastMsgSendTime);
  }

  function EventsOf(values: seq<(Field, seq<byte>)>): (r: seq<KeyValue.Event>)
    ensures |r| == |values|
  {
    if values == [] then [] else [KeyValue.Property(Name(values[0].0), values[0].1)] + EventsOf(values[1..])
  }

  /** The reader after some lines of a record. */
  lemma {:induction false} LinesRun(s: KeyValue.State, values: seq<(Field, seq<byte>)>)
    requires s.mode.FieldStart? && ProperValues(values)
    ensures var r := KeyValue.Run(s, LinesOf(values)); r.0.mode.FieldStart? && r.1 == EventsOf(values)
    decreases |values|
  {
    if values != [] {
      var line := KeyValue.Line(Name(values[0].0), values[0].1);
      NameProper(values[0].0);
      KeyValue.LineRun(s, Name(values[0].0), values[0].1);
      KeyValue.RunConcat(s, line, LinesOf(values[1..]));
      LinesRun(KeyValue.Run(s, line).0, values[1..]);
    }
  }

  /** A record is announced by its header and then reported value by value. */
  lemma RecordRun(s: KeyValue.State, values: seq<(Field, seq<byte>)>)
    requires ProperValues(values) && (s.mode.HeaderStart? || s.mode.FieldStart?)
    ensures var r := KeyValue.Run(s, RecordText(values));
      r.0.mode.FieldStart? && r.1 == [KeyValue.Header(MESSAGE)] + EventsOf(values)
  {
    var header, lines, events := KeyValue.HeaderLine(MESSAGE), LinesOf(values), EventsOf(values);
    KeyValue.HeaderLineRun(s, MESSAGE);
    KeyValue.RunConcat(s, header, lines + [TextLines.LF]);
    var s1 := KeyValue.Run(s, header).0;
    LinesRun(s1, values);
    KeyValue.RunConcat(s1, lines, [TextLines.LF]);
    var s2 := KeyValue.Run(s1, lines).0;
    KeyValue.RunOne(s2, TextLines.LF);
    assert events + [] == events;
  }

  /** The record a written record is turned into by the loader. */
  function Filled(sha: seq<byte> -> seq<byte>, p: Partial, values: seq<(Field, seq<byte>)>): Partial
    requires IsSha512(sha)
    decreases |values|
  {
    if values == [] then p else Filled(sha, Process(sha, p, values[0].0, values[0].1), values[1..])
  }

  lemma TakeOne(sha: seq<byte> -> seq<byte>, p: Partial, f: Field, value: seq<byte>, rest: seq<KeyValue.Event>)
    requires IsSha512(sha)
    ensures TakeAll(sha, p, [KeyValue.Property(Name(f), value)] + rest) == TakeAll(sha, Process(sha, p, f, value), rest)
  {
    var events := [KeyValue.Property(Name(f), value)] + rest;
    NameRead(f);
    assert events[1..] == rest;
    assert Take(sha, p, events[0]) == (Process(sha, p, f, value), []);
    var more := TakeAll(sha, Process(sha, p, f, value), rest);
    assert [] + more == more;
  }

  lemma {:induction false} TakeValues(sha: seq<byte> -> seq<byte>, p: Partial, values: seq<(Field, seq<byte>)>,
                                      rest: seq<KeyValue.Event>)
    requires IsSha512(sha)
    ensures TakeAll(sha, p, EventsOf(values) + rest) == TakeAll(sha, Filled(sha, p, values), rest)
    decreases |values|
  {
    if values == [] {
      assert EventsOf(values) + rest == rest;
    } else {
      var first := KeyValue.Property(Name(values[0].0), values[0].1);
      assert EventsOf(values) + rest == [first] + (EventsOf(values[1..]) + rest);
      TakeOne(sha, p, values[0].0, values[0].1, EventsOf(values[1..]) + rest);
      TakeValues(sha, Process(sha, p, values[0].0, values[0].1), values[1..], rest);
    }
  }

  /** What a written record comes back as: itself, or nothing, or with other addresses. */
  function Reloaded(sha: seq<byte> -> seq<byte>, o: Outgoing): seq<Outgoing>
    requires IsSha512(sha)
  {
    Flush(Filled(sha, RESET, Values(sha, o)))
  }

  function ReloadedAll(sha: seq<byte> -> seq<byte>, list: seq<Outgoing>): seq<Outgoing>
    requires IsSha512(sha)
  {
    if list == [] then [] else Reloaded(sha, list[0]) + ReloadedAll(sha, list[1..])
  }

  lemma {:induction false} LoadWritten(sha: seq<byte> -> seq<byte>, s: KeyValue.State, p: Partial, list: seq<Outgoing>)
    requires IsSha512(sha) && (s.mode.HeaderStart? || s.mode.FieldStart?)
    ensures TakeAll(sha, p, KeyValue.Run(s, WrittenAll(sha, list) + [TextLines.LF]).1) == Flush(p) + ReloadedAll(sha, list)
    decreases |list|
  {
    if list == [] {
      KeyValue.RunOne(s, TextLines.LF);
      assert WrittenAll(sha, list) + [TextLines.LF] == [TextLines.LF];
      assert Flush(p) + [] == Flush(p);
    } else {
      var o, more := list[0], WrittenAll(sha, list[1..]) + [TextLines.LF];
      assert WrittenAll(sha, list) + [TextLines.LF] == Written(sha, o) + more;
      KeyValue.RunConcat(s, Written(sha, o), more);
      ValuesProper(sha, o);
      RecordRun(s, Values(sha, o));
      var s1 := KeyValue.Run(s, Written(sha, o)).0;
      var rest := KeyValue.Run(s1, more).1;
      var filled := Filled(sha, RESET, Values(sha, o));
      TakeRecord(sha, p, Values(sha, o), rest);
      LoadWritten(sha, s1, filled, list[1..]);
      assert Flush(p) + (Flush(filled) + ReloadedAll(sha, list[1..])) == Flush(p) + ReloadedAll(sha, list);
    }
  }

  lemma TakeRecord(sha: seq<byte> -> seq<byte>, p: Partial, values: seq<(Field, seq<byte>)>, rest: seq<KeyValue.Event>)
    requires IsSha512(sha)
    ensures TakeAll(sha, p, [KeyValue.Header(MESSAGE)] + EventsOf(values) + rest)
      == Flush(p) + TakeAll(sha, Filled(sha, RESET, values), rest)
  {
    var events := [KeyValue.Header(MESSAGE)] + EventsOf(values) + rest;
    assert events[1..] == EventsOf(values) + rest;
    TakeValues(sha, RESET, values, rest);
  }

  // ----------------------------------------------------- when a record is kept

  /** Records that come back as they were. */
  predicate Kept(o: Outgoing)
  {
    o.from.version >= 1 && o.to.version >= 1 && o.contentId <= INT_MAX
  }

  type Filler = (Partial, Field, seq<byte>) -> Partial

  function FilledBy(fill: Filler, p: Partial, values: seq<(Field, seq<byte>)>): Partial
    decreases |values|
  {
    if values == [] then p else FilledBy(fill, fill(p, values[0].0, values[0].1), values[1..])
  }

  /** Seven values are filled in one after the other. */
  lemma FilledInTurn(fill: Filler, p: Partial, v: seq<(Field, seq<byte>)>)
    requires |v| == 7
    ensures FilledBy(fill, p, v) ==
      var p1 := fill(p, v[0].0, v[0].1);
      var p2 := fill(p1, v[1].0, v[1].1);
      var p3 := fill(p2, v[2].0, v[2].1);
      var p4 := fill(p3, v[3].0, v[3].1);
      var p5 := fill(p4, v[4].0, v[4].1);
      var p6 := fill(p5, v[5].0, v[5].1);
      fill(p6, v[6].0, v[6].1)
  {
    FilledOne(fill, p, v, 0);
    FilledOne(fill, fill(p, v[0].0, v[0].1), v, 1);
    var p2 := fill(fill(p, v[0].0, v[0].1), v[1].0, v[1].1);
    FilledOne(fill, p2, v, 2);
    var p3 := fill(p2, v[2].0, v[2].1);
    FilledOne(fill, p3, v, 3);
    var p4 := fill(p3, v[3].0, v[3].1);
    FilledOne(fill, p4, v, 4);
    var p5 := fill(p4, v[4].0, v[4].1);
    FilledOne(fill, p5, v, 5);
    FilledOne(fill, fill(p5, v[5].0, v[5].1), v, 6);
    assert v[0..] == v && v[7..] == [];
  }

  lemma FilledOne(fill: Filler, p: Partial, v: seq<(Field, seq<byte>)>, i: nat)
    requires i < |v|
    ensures FilledBy(fill, p, v[i..]) == FilledBy(fill, fill(p, v[i].0, v[i].1), v[i + 1..])
  {
    assert v[i..][0] == v[i] && v[i..][1..] == v[i + 1..];
  }

  ghost function FillerOf(sha: seq<byte> -> seq<byte>): Filler
    requires IsSha512(sha)
  {
    (p: Partial, f: Field, value: seq<byte>) => Process(sha, p, f, value)
  }

  lemma {:induction false} FilledIsFilledBy(sha: seq<byte> -> seq<byte>, p: Partial, v: seq<(Field, seq<byte>)>)
    requires IsSha512(sha)
    ensures Filled(sha, p, v) == FilledBy(FillerOf(sha), p, v)
    decreases |v|
  {
    if v != [] {
      var p' := Process(sha, p, v[0].0, v[0].1);
      assert FillerOf(sha)(p, v[0].0, v[0].1) == p';
      FilledIsFilledBy(sha, p', v[1..]);
    }
  }

  /** The parts of a written record, each read from its own value. */
  function Parts(sha: seq<byte> -> seq<byte>, v: seq<(Field, seq<byte>)>): Partial
    requires IsSha512(sha) && |v| == 7
  {
    Partial(Addresses.Decode(sha, v[0].1), Addresses.Decode(sha, v[1].1), ParseAckdata(v[2].1),
            ToU64(KeyValue.ParseInt(v[3].1, INT_MAX)), OrInt(ToInt(KeyValue.ParseInt(v[4].1, INT_MAX)), 1),
            OrInt(KeyValue.ParseInt(v[5].1, INT64_MAX), 0), OrInt(KeyValue.ParseInt(v[6].1, INT64_MAX), 0))
  }

  ghost predicate InOrder(v: seq<(Field, seq<byte>)>)
  {
    && |v| == 7 && v[0].0 == FromAddress && v[1].0 == ToAddress && v[2].0 == Ackdata && v[3].0 == ContentId
    && v[4].0 == ContentEncoding && v[5].0 == LastGetpubkeySendTime && v[6].0 == LastMsgSendTime
  }

  lemma ProcessParts(sha: seq<byte> -> seq<byte>, v: seq<(Field, seq<byte>)>)
    requires IsSha512(sha) && InOrder(v)
    ensures
      var fill := FillerOf(sha);
      var p3 := fill(fill(fill(RESET, v[0].0, v[0].1), v[1].0, v[1].1), v[2].0, v[2].1);
      var p5 := fill(fill(p3, v[3].0, v[3].1), v[4].0, v[4].1);
      fill(fill(p5, v[5].0, v[5].1), v[6].0, v[6].1) == Parts(sha, v)
  {
    var r := Parts(sha, v);
    var p1 := Process(sha, RESET, v[0].0, v[0].1);
    assert p1 == RESET.(from := r.from);
    var p2 := Process(sha, p1, v[1].0, v[1].1);
    assert p2 == p1.(to := r.to);
    var p3 := Process(sha, p2, v[2].0, v[2].1);
    assert p3 == p2.(ackdata := r.ackdata);
    var p4 := Process(sha, p3, v[3].0, v[3].1);
    assert p4 == p3.(contentId := r.contentId);
    var p5 := Process(sha, p4, v[4].0, v[4].1);
    assert p5 == p4.(contentEncoding := r.contentEncoding);
    var p6 := Process(sha, p5, v[5].0, v[5].1);
    assert p6 == p5.(lastGetpubkeySendTime := r.lastGetpubkeySendTime);
  }

  lemma FilledIs(sha: seq<byte> -> seq<byte>, v: seq<(Field, seq<byte>)>)
    requires IsSha512(sha) && InOrder(v)
    ensures Filled(sha, RESET, v) == Parts(sha, v)
  {
    FilledIsFilledBy(sha, RESET, v);
    FilledInTurn(FillerOf(sha), RESET, v);
    ProcessParts(sha, v);
  }

  lemma AckdataRead(ackdata: seq<byte>)
    requires |ackdata| == ACKDATA_SIZE
    ensures ParseAckdata(Base58.Encode(ackdata)) == Some(ackdata)
  {
    Base58.PaddedRoundTrip(ackdata);
  }

  lemma ContentIdRead(n: int)
    requires 0 <= n < TWO_64
    ensures ToU64(KeyValue.ParseInt(KeyValue.Printed(n), INT_MAX)) == if n <= INT_MAX then Some(n) else None
  {
    KeyValue.PrintedRoundTrip(n, INT_MAX);
  }

  lemma EncodingRead(n: int)
    requires -0x8000_0000 <= n <= INT_MAX
    ensures OrInt(ToInt(KeyValue.ParseInt(KeyValue.Printed(n), INT_MAX)), 1) == n
  {
    KeyValue.PrintedRoundTrip(n, INT_MAX);
  }

  lemma TimeRead(n: int)
    requires KeyValue.INT64_MIN <= n <= INT64_MAX
    ensures OrInt(KeyValue.ParseInt(KeyValue.Printed(n), INT64_MAX), 0) == n
  {
    KeyValue.PrintedRoundTrip(n, INT64_MAX);
  }

  lemma PartsRead(sha: seq<byte> -> seq<byte>, o: Outgoing)
    requires IsSha512(sha) && Typed(o)
    ensures Parts(sha, Values(sha, o)) == Partial(
      Addresses.Decode(sha, Addresses.Encode(sha, o.from)), Addresses.Decode(sha, Addresses.Encode(sha, o.to)),
      Some(o.ackdata), if o.contentId <= INT_MAX then Some(o.contentId) else None,
      o.contentEncoding, o.lastGetpubkeySendTime, o.lastMsgSendTime)
  {
    AckdataRead(o.ackdata);
    ContentIdRead(o.contentId);
    EncodingRead(o.contentEncoding);
    TimeRead(o.lastGetpubkeySendTime);
    TimeRead(o.lastMsgSendTime);
  }

  lemma FlushRead(p: Partial, o: Outgoing, from: Option<Addresses.Address>, to: Option<Addresses.Address>)
    requires p == Partial(from, to, Some(o.ackdata), if o.contentId <= INT_MAX then Some(o.contentId) else None,
                          o.contentEncoding, o.lastGetpubkeySendTime, o.lastMsgSendTime)
    ensures |Flush(p)| <= 1
    ensures Flush(p) == [o] <==> from == Some(o.from) && to == Some(o.to) && o.contentId <= INT_MAX
  {
    if Flush(p) == [o] {
      assert Flush(p)[0].from == o.from && Flush(p)[0].to == o.to;
    }
  }

  /** A record is kept exactly when both versions are at least 1 and its content id is an
      int; in every other case it does not come back as it was. */
  lemma RecordRoundTrip(sha: seq<byte> -> seq<byte>, o: Outgoing)
    requires IsSha512(sha) && Typed(o)
    ensures |Reloaded(sha, o)| <= 1 && (Reloaded(sha, o) == [o] <==> Kept(o))
  {
    FilledIs(sha, Values(sha, o));
    PartsRead(sha, o);
    FlushRead(Parts(sha, Values(sha, o)), o, Addresses.Decode(sha, Addresses.Encode(sha, o.from)),
              Addresses.Decode(sha, Addresses.Encode(sha, o.to)));
    Addresses.RoundTrip(sha, o.from);
    Addresses.RoundTrip(sha, o.to);
  }

  lemma FirstAndRest<T>(first: seq<T>, rest: seq<T>, o: T, more: seq<T>)
    requires |first| <= 1 && |rest| <= |more|
    ensures first + rest == [o] + more <==> first == [o] && rest == more
  {
    if first + rest == [o] + more {
      assert |first| == 1;
      assert first == (first + rest)[..1] && rest == (first + rest)[1..];
      assert [o] == ([o] + more)[..1] && more == ([o] + more)[1..];
    }
  }

  ghost predicate AllKept(list: seq<Outgoing>)
  {
    forall o :: o in list ==> Kept(o)
  }

  lemma AllKeptFirst(list: seq<Outgoing>)
    requires list != []
    ensures AllKept(list) <==> Kept(list[0]) && AllKept(list[1..])
    ensures list == [list[0]] + list[1..]
  {
  }

  lemma {:induction false} ReloadedSize(sha: seq<byte> -> seq<byte>, list: seq<Outgoing>)
    requires IsSha512(sha) && forall o :: o in list ==> Typed(o)
    ensures |ReloadedAll(sha, list)| <= |list|
    ensures ReloadedAll(sha, list) == list <==> AllKept(list)
  {
    if list != [] {
      AllKeptFirst(list);
      RecordRoundTrip(sha, list[0]);
      ReloadedSize(sha, list[1..]);
      FirstAndRest(Reloaded(sha, list[0]), ReloadedAll(sha, list[1..]), list[0], list[1..]);
    }
  }

  /** Loading what was written for a list of outgoing messages yields the same list, in
      order, exactly when every record is one that is kept. */
  lemma FileRoundTrip(sha: seq<byte> -> seq<byte>, list: seq<Outgoing>)
    requires IsSha512(sha) && forall o :: o in list ==> Typed(o)
    ensures Loaded(sha, WrittenAll(sha, list)) == list <==> AllKept(list)
  {
    LoadWritten(sha, KeyValue.START, RESET, list);
    assert Flush(RESET) + ReloadedAll(sha, list) == ReloadedAll(sha, list);
    ReloadedSize(sha, list);
  }

  // ------------------------------------------------------------ any other file

  /** What a key says in a record: the last of its values that can be read. */
  function LastOf<T>(read: seq<byte> -> Option<T>, f: Field, record: seq<KeyValue.Event>): Option<T>
  {
    if record == [] then None
    else
      var later := LastOf(read, f, record[1..]);
      if later.Some? then later
      else if record[0].Property? && record[0].key == Name(f) then read(record[0].value)
      else None
  }

  ghost function AddressReader(sha: seq<byte> -> seq<byte>): seq<byte> -> Option<Addresses.Address>
    requires IsSha512(sha)
  {
    (value: seq<byte>) => Addresses.Decode(sha, value)
  }

  function ReadId(value: seq<byte>): Option<int>
  {
    ToU64(KeyValue.ParseInt(value, INT_MAX))
  }

  function ReadEncoding(value: seq<byte>): Option<int>
  {
    ToInt(KeyValue.ParseInt(value, INT_MAX))
  }

  function ReadTime(value: seq<byte>): Option<int>
  {
    KeyValue.ParseInt(value, INT64_MAX)
  }

  /** A record as it stands in the file: a message if it says both addresses, the ackdata
      and the id, and otherwise nothing. */
  ghost function RecordOf(sha: seq<byte> -> seq<byte>, record: seq<KeyValue.Event>): seq<Outgoing>
    requires IsSha512(sha)
  {
    var from := LastOf(AddressReader(sha), FromAddress, record);
    var to := LastOf(AddressReader(sha), ToAddress, record);
    var ackdata := LastOf(ParseAckdata, Ackdata, record);
    var id := LastOf(ReadId, ContentId, record);
    if from.None? || to.None? || ackdata.None? || id.None? then []
    else
      [Outgoing(from.value, to.value, ackdata.value, id.value,
                OrInt(LastOf(ReadEncoding, ContentEncoding, record), 1),
                OrInt(LastOf(ReadTime, LastGetpubkeySendTime, record), 0),
                OrInt(LastOf(ReadTime, LastMsgSendTime, record), 0))]
  }

  ghost predicate OnlyProperties(record: seq<KeyValue.Event>)
  {
    forall i :: 0 <= i < |record| ==> record[i].Property?
  }

  /** What has been read before, and what a record adds to it. */
  ghost function Overlaid(sha: seq<byte> -> seq<byte>, p: Partial, record: seq<KeyValue.Event>): Partial
    requires IsSha512(sha)
  {
    Partial(OrElse(LastOf(AddressReader(sha), FromAddress, record), p.from),
            OrElse(LastOf(AddressReader(sha), ToAddress, record), p.to),
            OrElse(LastOf(ParseAckdata, Ackdata, record), p.ackdata),
            OrElse(LastOf(ReadId, ContentId, record), p.contentId),
            OrInt(LastOf(ReadEncoding, ContentEncoding, record), p.contentEncoding),
            OrInt(LastOf(ReadTime, LastGetpubkeySendTime, record), p.lastGetpubkeySendTime),
            OrInt(LastOf(ReadTime, LastMsgSendTime, record), p.lastMsgSendTime))
  }

  lemma FieldIs(key: seq<byte>, f: Field)
    ensures FieldOf(key) == Some(f) <==> key == Name(f)
  {
    NameRead(f);
  }

  lemma LastFirst<T>(read: seq<byte> -> Option<T>, f: Field, record: seq<KeyValue.Event>)
    requires record != [] && record[0].Property?
    ensures LastOf(read, f, record) ==
      OrElse(LastOf(read, f, record[1..]), if FieldOf(record[0].key) == Some(f) then read(record[0].value) else None)
  {
    FieldIs(record[0].key, f);
  }

  lemma OverlaidFirst(sha: seq<byte> -> seq<byte>, p: Partial, record: seq<KeyValue.Event>)
    requires IsSha512(sha) && record != [] && record[0].Property?
    ensures Overlaid(sha, p, record) == Overlaid(sha, Take(sha, p, record[0]).0, record[1..])
  {
    LastFirst(AddressReader(sha), FromAddress, record);
    LastFirst(AddressReader(sha), ToAddress, record);
    LastFirst(ParseAckdata, Ackdata, record);
    LastFirst(ReadId, ContentId, record);
    LastFirst(ReadEncoding, ContentEncoding, record);
    LastFirst(ReadTime, LastGetpubkeySendTime, record);
    LastFirst(ReadTime, LastMsgSendTime, record);
  }

  lemma {:induction false} RecordTaken(sha: seq<byte> -> seq<byte>, p: Partial, record: seq<KeyValue.Event>,
                                       rest: seq<KeyValue.Event>)
    requires IsSha512(sha) && OnlyProperties(record)
    ensures TakeAll(sha, p, record + rest) == TakeAll(sha, Overlaid(sha, p, record), rest)
    decreases |record|
  {
    if record == [] {
      assert record + rest == rest;
    } else {
      OverlaidFirst(sha, p, record);
      assert (record + rest)[0] == record[0] && (record + rest)[1..] == record[1..] + rest;
      var p' := Take(sha, p, record[0]).0;
      RecordTaken(sha, p', record[1..], rest);
      var more := TakeAll(sha, p', record[1..] + rest);
      assert [] + more == more;
    }
  }

  lemma FlushedRecord(sha: seq<byte> -> seq<byte>, record: seq<KeyValue.Event>)
    requires IsSha512(sha)
    ensures Flush(Overlaid(sha, RESET, record)) == RecordOf(sha, record)
  {
  }

  /** Whatever a file holds, a record in it, up to the next heading or the end, becomes a
      message if and only if it says all that is needed, in any order, with unknown keys and
      unreadable values among it; the last readable value of a key counts. */
  lemma RecordLoaded(sha: seq<byte> -> seq<byte>, record: seq<KeyValue.Event>, heading: seq<byte>,
                     rest: seq<KeyValue.Event>)
    requires IsSha512(sha) && OnlyProperties(record)
    ensures TakeAll(sha, RESET, record) == RecordOf(sha, record)
    ensures TakeAll(sha, RESET, record + ([KeyValue.Header(heading)] + rest))
      == RecordOf(sha, record) + TakeAll(sha, RESET, rest)
  {
    FlushedRecord(sha, record);
    RecordTaken(sha, RESET, record, []);
    assert record + [] == record;
    var more := [KeyValue.Header(heading)] + rest;
    RecordTaken(sha, RESET, record, more);
    assert more[1..] == rest;
  }

  // -------------------------------------------------------------- content ids

  /** The ids that can be read: those of an int, and large ones that stand for negative
      numbers. */
  predicate Readable(id: int)
  {
    0 <= id <= INT_MAX || TWO_63 <= id < TWO_64
  }

  lemma IdRead(value: seq<byte>)
    ensures var r := ToU64(KeyValue.ParseInt(value, INT_MAX)); r.Some? ==> Readable(r.value)
  {
    var n := KeyValue.ParseInt(value, INT_MAX);
    if n.Some? && n.value < 0 {
      DivModUnique(n.value, TWO_64, -1, n.value + TWO_64);
    }
  }

  ghost predicate IdReadable(p: Partial)
  {
    p.contentId.Some? ==> Readable(p.contentId.value)
  }

  lemma {:induction false} TakeAllIds(sha: seq<byte> -> seq<byte>, p: Partial, events: seq<KeyValue.Event>)
    requires IsSha512(sha) && IdReadable(p)
    ensures forall o :: o in TakeAll(sha, p, events) ==> Readable(o.contentId)
    decreases |events|
  {
    if events != [] {
      TakeIds(sha, p, events[0]);
      TakeAllIds(sha, Take(sha, p, events[0]).0, events[1..]);
    }
  }

  lemma TakeIds(sha: seq<byte> -> seq<byte>, p: Partial, e: KeyValue.Event)
    requires IsSha512(sha) && IdReadable(p)
    ensures IdReadable(Take(sha, p, e).0) && forall o :: o in Take(sha, p, e).1 ==> Readable(o.contentId)
  {
    if e.Property? {
      IdRead(e.value);
    }
  }

  /** Every id in every file. */
  lemma LoadedIds(sha: seq<byte> -> seq<byte>, file: seq<byte>)
    requires IsSha512(sha)
    ensures forall o :: o in Loaded(sha, file) ==> Readable(o.contentId)
  {
    TakeAllIds(sha, RESET, KeyValue.Events(file));
  }

  /** A record with any number up to the limit in the place of its id is read with that
      number as an unsigned one of 64 bits. */
  lemma AnyIdReloaded(sha: seq<byte> -> seq<byte>, o: Outgoing, n: int)
    requires IsSha512(sha) && Typed(o) && o.from.version >= 1 && o.to.version >= 1
    requires KeyValue.INT64_MIN <= n <= INT_MAX
    ensures Reloaded(sha, o.(contentId := n)) == [o.(contentId := n % TWO_64)]
  {
    var v := Values(sha, o.(contentId := n));
    FilledIs(sha, v);
    AckdataRead(o.ackdata);
    KeyValue.PrintedRoundTrip(n, INT_MAX);
    EncodingRead(o.contentEncoding);
    TimeRead(o.lastGetpubkeySendTime);
    TimeRead(o.lastMsgSendTime);
    Addresses.RoundTrip(sha, o.from);
    Addresses.RoundTrip(sha, o.to);
  }

  /** A file of two such records. */
  lemma TwoRecordsLoaded(sha: seq<byte> -> seq<byte>, o: Outgoing, m: int, n: int)
    requires IsSha512(sha) && Typed(o) && o.from.version >= 1 && o.to.version >= 1
    requires KeyValue.INT64_MIN <= m <= INT_MAX && KeyValue.INT64_MIN <= n <= INT_MAX
    ensures Loaded(sha, WrittenAll(sha, [o.(contentId := m), o.(contentId := n)]))
      == [o.(contentId := m % TWO_64), o.(contentId := n % TWO_64)]
  {
    var list := [o.(contentId := m), o.(contentId := n)];
    LoadWritten(sha, KeyValue.START, RESET, list);
    assert Flush(RESET) + ReloadedAll(sha, list) == ReloadedAll(sha, list);
    AnyIdReloaded(sha, o, m);
    AnyIdReloaded(sha, o, n);
    ReloadedTwo(sha, list[0], list[1]);
  }

  lemma ReloadedTwo(sha: seq<byte> -> seq<byte>, a: Outgoing, b: Outgoing)
    requires IsSha512(sha)
    ensures ReloadedAll(sha, [a, b]) == Reloaded(sha, a) + Reloaded(sha, b)
  {
    assert [a, b][1..] == [b] && [b][1..] == [];
    assert ReloadedAll(sha, []) == [];
    assert ReloadedAll(sha, [b]) == Reloaded(sha, b) + [];
    assert Reloaded(sha, b) + [] == Reloaded(sha, b);
  }
}
