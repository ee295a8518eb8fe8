/** The key-value file format: headers in brackets and lines of keys and values, read
    octet by octet by a machine of eleven states. */
module KeyValue {
  import opened Bytes
  import opened Proto
  import opened TextLines

  const SPACE: byte := 32
  const EQUALS: byte := 61
  const OPEN: byte := 91
  const CLOSE: byte := 93

  datatype Mode =
    | HeaderStart | BadHeaderStart | ReadingHeader | EndHeaderLine | EndHeaderLine2
    | FieldStart | ReadingFieldName | WaitingEquals | BadField | WaitingValueStart | ReadingValue

  datatype State = State(mode: Mode, key: seq<byte>, value: seq<byte>)

  const START := State(HeaderStart, [], [])

  /** What the reader of a file is told; the texts are C strings. */
  datatype Event = Header(name: seq<byte>) | Property(key: seq<byte>, value: seq<byte>)

  function TrimEnd(s: seq<byte>): (r: seq<byte>)
    ensures r <= s
  {
    if s != [] && s[|s| - 1] == SPACE then TrimEnd(s[..|s| - 1]) else s
  }

  function ProcessValue(s: State): Event
  {
    Property(CString(s.key), CString(TrimEnd(s.value)))
  }

  /** handle_byte */
  function Step(s: State, ch: byte): (State, seq<Event>)
  {
    match s.mode
    case HeaderStart =>
      if ch == OPEN then (s.(mode := ReadingHeader, value := []), [])
      else if ch != SPACE && ch != LF then (s.(mode := BadHeaderStart), [])
      else (s, [])
    case BadHeaderStart =>
      if ch == LF then (s.(mode := HeaderStart), []) else (s, [])
    case ReadingHeader =>
      if ch == LF then (s.(mode := FieldStart), [])
      else if ch == CLOSE then (s.(mode := EndHeaderLine), [Header(CString(s.value))])
      else (s.(value := s.value + [ch]), [])
    case EndHeaderLine =>
      if ch == LF then (s.(mode := FieldStart), [])
      else if ch != SPACE then (s.(mode := EndHeaderLine2), [])
      else (s, [])
    case EndHeaderLine2 =>
      if ch == LF then (s.(mode := FieldStart), []) else (s, [])
    case FieldStart =>
      if ch == OPEN then (s.(mode := ReadingHeader, value := []), [])
      else if ch != SPACE && ch != LF then (s.(mode := ReadingFieldName, key := [ch]), [])
      else (s, [])
    case ReadingFieldName =>
      if ch == SPACE then (s.(mode := WaitingEquals), [])
      else if ch == EQUALS then (s.(mode := WaitingValueStart), [])
      else if ch == LF then (s.(mode := FieldStart), [])
      else (s.(key := s.key + [ch]), [])
    case WaitingEquals =>
      if ch == EQUALS then (s.(mode := WaitingValueStart), [])
      else if ch == LF then (s.(mode := FieldStart), [])
      else if ch != SPACE then (s.(mode := BadField), [])
      else (s, [])
    case WaitingValueStart =>
      if ch == LF then
        var done := s.(value := []);
        (done.(mode := FieldStart), [ProcessValue(done)])
      else if ch != SPACE then (s.(mode := ReadingValue, value := [ch]), [])
      else (s, [])
    case ReadingValue =>
      if ch == LF then (s.(mode := FieldStart, value := TrimEnd(s.value)), [ProcessValue(s)])
      else (s.(value := s.value + [ch]), [])
    case BadField =>
      if ch == LF then (s.(mode := FieldStart), []) else (s, [])
  }

  type Stepper = (State, byte) -> (State, seq<Event>)

  function RunWith(step: Stepper, s: State, input: seq<byte>): (State, seq<Event>)
    decreases |input|
  {
    if input == [] then (s, [])
    else
      var first := step(s, input[0]);
      var more := RunWith(step, first.0, input[1..]);
      (more.0, first.1 + more.1)
  }

  function Run(s: State, input: seq<byte>): (State, seq<Event>)
  {
    RunWith(Step, s, input)
  }

  /** The events of a whole file; its end counts as the end of a line. */
  function Events(file: seq<byte>): seq<Event>
  {
    Run(START, file + [LF]).1
  }

  // ---------------------------------------------------------------- in place

  class Loader {
    var mode: Mode
    var key: seq<byte>
    var value: seq<byte>
    var events: seq<Event>

    function Abs(): State
      reads this
    {
      State(mode, key, value)
    }

    constructor ()
      ensures Abs() == START && events == []
    {
      mode, key, value, events := HeaderStart, [], [], [];
    }

    method EmitValue()
      modifies this
      ensures Abs() == old(Abs()).(value := TrimEnd(old(value)))
      ensures events == old(events) + [ProcessValue(old(Abs()))]
    {
      ghost var whole := value;
      while |value| > 0 && value[|value| - 1] == SPACE
        invariant TrimEnd(whole) == TrimEnd(value)
        invariant mode == old(mode) && key == old(key) && events == old(events)
        decreases |value|
      {
        value := value[..|value| - 1];
      }
      events := events + [Property(CString(key), CString(value))];
    }

    method HandleByte(ch: byte)
      modifies this
      ensures (Abs(), events) == (Step(old(Abs()), ch).0, old(events) + Step(old(Abs()), ch).1)
    {
      ghost var none: seq<Event> := [];
      assert events + none == events;
      if mode.ReadingValue? || mode.WaitingValueStart? {
        HandleValueByte(ch);
      } else if mode.HeaderStart? || mode.BadHeaderStart? || mode.ReadingHeader? {
        HandleHeaderByte(ch);
      } else {
        HandleFieldByte(ch);
      }
    }

    method HandleValueByte(ch: byte)
      requires mode.ReadingValue? || mode.WaitingValueStart?
      modifies this
      ensures (Abs(), events) == (Step(old(Abs()), ch).0, old(events) + Step(old(Abs()), ch).1)
    {
      ghost var none: seq<Event> := [];
      assert events + none == events;
      if mode.WaitingValueStart? {
        if ch == LF {
          value := [];
          EmitValue();
          mode := FieldStart;
        } else if ch != SPACE {
          value := [ch];
          mode := ReadingValue;
        }
      } else if ch == LF {
        EmitValue();
        mode := FieldStart;
      } else {
        value := value + [ch];
      }
    }

    method HandleHeaderByte(ch: byte)
      requires mode.HeaderStart? || mode.BadHeaderStart? || mode.ReadingHeader?
      modifies this
      ensures (Abs(), events) == (Step(old(Abs()), ch).0, old(events) + Step(old(Abs()), ch).1)
    {
      ghost var none: seq<Event> := [];
      assert events + none == events;
      if mode.HeaderStart? {
        if ch == OPEN {
          mode, value := ReadingHeader, [];
        } else if ch != SPACE && ch != LF {
          mode := BadHeaderStart;
        }
      } else if mode.BadHeaderStart? {
        if ch == LF {
          mode := HeaderStart;
        }
      } else if ch == LF {
        mode := FieldStart;
      } else if ch == CLOSE {
        events := events + [Header(CString(value))];
        mode := EndHeaderLine;
      } else {
        value := value + [ch];
      }
    }

    method HandleFieldByte(ch: byte)
      requires mode.EndHeaderLine? || mode.EndHeaderLine2? || mode.FieldStart? || mode.ReadingFieldName?
        || mode.WaitingEquals? || mode.BadField?
      modifies this
      ensures (Abs(), events) == (Step(old(Abs()), ch).0, old(events) + Step(old(Abs()), ch).1)
    {
      ghost var none: seq<Event> := [];
      assert events + none == events;
      if mode.FieldStart? {
        if ch == OPEN {
          mode, value := ReadingHeader, [];
        } else if ch != SPACE && ch != LF {
          key, mode := [ch], ReadingFieldName;
        }
      } else if ch == LF {
        mode := FieldStart;
      } else if mode.EndHeaderLine? {
        if ch != SPACE {
          mode := EndHeaderLine2;
        }
      } else if mode.ReadingFieldName? {
        if ch == SPACE {
          mode := WaitingEquals;
        } else if ch == EQUALS {
          mode := WaitingValueStart;
        } else {
          key := key + [ch];
        }
      } else if mode.WaitingEquals? {
        if ch == EQUALS {
          mode := WaitingValueStart;
        } else if ch != SPACE {
          mode := BadField;
        }
      }
    }
  }

  /** ntb_key_value_load */
  method Load(file: seq<byte>) returns (events: seq<Event>)
    ensures events == Events(file)
  {
    var data := new Loader();
    var i := 0;
    ghost var input := file + [LF];
    assert input[..0] == [];
    while i < |file|
      invariant i <= |file| && Run(START, input[..i]) == (data.Abs(), data.events)
    {
      RunStep(START, input, i);
      data.HandleByte(file[i]);
      i := i + 1;
    }
    RunStep(START, input, i);
    data.HandleByte(LF);
    assert input[..i + 1] == input;
    return data.events;
  }

  lemma {:induction false} RunWithConcat(step: Stepper, s: State, a: seq<byte>, b: seq<byte>)
    ensures var first := RunWith(step, s, a);
      var second := RunWith(step, first.0, b);
      RunWith(step, s, a + b) == (second.0, first.1 + second.1)
    decreases |a|
  {
    if a == [] {
      assert a + b == b;
      assert [] + RunWith(step, s, b).1 == RunWith(step, s, b).1;
    } else {
      var one := step(s, a[0]);
      RunWithConcat(step, one.0, a[1..], b);
      assert (a + b)[0] == a[0] && (a + b)[1..] == a[1..] + b;
      var first := RunWith(step, one.0, a[1..]);
      var second := RunWith(step, first.0, b);
      assert one.1 + (first.1 + second.1) == one.1 + first.1 + second.1;
    }
  }

  lemma RunConcat(s: State, a: seq<byte>, b: seq<byte>)
    ensures var first := Run(s, a);
      Run(s, a + b) == (Run(first.0, b).0, first.1 + Run(first.0, b).1)
  {
    RunWithConcat(Step, s, a, b);
  }

  lemma RunStep(s: State, input: seq<byte>, i: nat)
    requires i < |input|
    ensures var first := Run(s, input[..i]);
      Run(s, input[..i + 1]) == (Step(first.0, input[i]).0, first.1 + Step(first.0, input[i]).1)
  {
    var first := Run(s, input[..i]);
    RunConcat(s, input[..i], [input[i]]);
    assert input[..i + 1] == input[..i] + [input[i]];
    RunOne(first.0, input[i]);
  }

  lemma RunOne(s: State, ch: byte)
    ensures Run(s, [ch]) == Step(s, ch)
  {
    var first := Step(s, ch);
    assert [ch][1..] == [] && RunWith(Step, first.0, []) == (first.0, []);
    assert first.1 + [] == first.1;
  }

  // ------------------------------------------------------------ written lines

  /** Running over text that gives no event. */
  lemma QuietThen(s: State, a: seq<byte>, t: State, b: seq<byte>)
    requires Run(s, a) == (t, [])
    ensures Run(s, a + b) == Run(t, b)
  {
    RunConcat(s, a, b);
    assert [] + Run(t, b).1 == Run(t, b).1;
  }

  lemma {:induction false} ReadRest(s: State, text: seq<byte>)
    requires s.mode.ReadingHeader? || s.mode.ReadingFieldName? || s.mode.ReadingValue?
    requires LF !in text
    requires s.mode.ReadingHeader? ==> CLOSE !in text
    requires s.mode.ReadingFieldName? ==> SPACE !in text && EQUALS !in text
    ensures Run(s, text) ==
      (if s.mode.ReadingFieldName? then s.(key := s.key + text) else s.(value := s.value + text), [])
    decreases |text|
  {
    if text == [] {
      assert s.key + text == s.key && s.value + text == s.value;
    } else {
      var next := Step(s, text[0]).0;
      assert Step(s, text[0]).1 == [];
      ReadRest(next, text[1..]);
      assert s.key + [text[0]] + text[1..] == s.key + text;
      assert s.value + [text[0]] + text[1..] == s.value + text;
      var none: seq<Event> := [];
      assert none + none == none;
    }
  }

  function HeaderLine(name: seq<byte>): seq<byte>
  {
    [OPEN] + (name + ([CLOSE] + [LF]))
  }

  function Line(key: seq<byte>, value: seq<byte>): seq<byte>
  {
    KeyPart(key) + ([SPACE] + (value + [LF]))
  }

  function KeyPart(key: seq<byte>): seq<byte>
  {
    key + ([SPACE] + [EQUALS])
  }

  predicate ProperKey(key: seq<byte>)
  {
    key != [] && key[0] != OPEN && SPACE !in key && EQUALS !in key && LF !in key && 0 !in key
  }

  predicate ProperValue(value: seq<byte>)
  {
    value != [] && value[0] != SPACE && value[|value| - 1] != SPACE && LF !in value && 0 !in value
  }

  lemma {:induction false} CStringWhole(s: seq<byte>)
    requires 0 !in s
    ensures CString(s) == s
  {
    if s != [] {
      CStringWhole(s[1..]);
    }
  }

  lemma HeaderLineRun(s: State, name: seq<byte>)
    requires (s.mode.HeaderStart? || s.mode.FieldStart?) && CLOSE !in name && LF !in name && 0 !in name
    ensures Run(s, HeaderLine(name)) == (s.(mode := FieldStart, value := name), [Header(name)])
  {
    var reading := s.(mode := ReadingHeader, value := []);
    RunOne(s, OPEN);
    QuietThen(s, [OPEN], reading, name + ([CLOSE] + [LF]));
    ReadRest(reading, name);
    assert [] + name == name;
    var read := reading.(value := name);
    QuietThen(reading, name, read, [CLOSE] + [LF]);
    RunConcat(read, [CLOSE], [LF]);
    RunOne(read, CLOSE);
    RunOne(read.(mode := EndHeaderLine), LF);
    CStringWhole(name);
  }

  lemma KeyRun(s: State, key: seq<byte>)
    requires s.mode.FieldStart? && ProperKey(key)
    ensures Run(s, KeyPart(key)) == (s.(mode := WaitingValueStart, key := key), [])
  {
    var first := s.(mode := ReadingFieldName, key := [key[0]]);
    assert key == [key[0]] + key[1..];
    RunOne(s, key[0]);
    QuietThen(s, [key[0]], first, key[1..]);
    ReadRest(first, key[1..]);
    var named := first.(key := key);
    QuietThen(s, key, named, [SPACE] + [EQUALS]);
    RunOne(named, SPACE);
    QuietThen(named, [SPACE], named.(mode := WaitingEquals), [EQUALS]);
    RunOne(named.(mode := WaitingEquals), EQUALS);
  }

  lemma ValueRun(s: State, value: seq<byte>)
    requires s.mode.WaitingValueStart? && ProperValue(value) && 0 !in s.key
    ensures Run(s, [SPACE] + (value + [LF])) == (s.(mode := FieldStart, value := value), [Property(s.key, value)])
  {
    RunOne(s, SPACE);
    QuietThen(s, [SPACE], s, value + [LF]);
    var first := s.(mode := ReadingValue, value := [value[0]]);
    assert value == [value[0]] + value[1..];
    RunOne(s, value[0]);
    QuietThen(s, [value[0]], first, value[1..]);
    ReadRest(first, value[1..]);
    var read := first.(value := value);
    QuietThen(s, value, read, [LF]);
    RunOne(read, LF);
    CStringWhole(s.key);
    CStringWhole(value);
  }

  /** A written line is reported as its key and value. */
  lemma LineRun(s: State, key: seq<byte>, value: seq<byte>)
    requires s.mode.FieldStart? && ProperKey(key) && ProperValue(value)
    ensures Run(s, Line(key, value)) == (State(FieldStart, key, value), [Property(key, value)])
  {
    KeyRun(s, key);
    QuietThen(s, KeyPart(key), s.(mode := WaitingValueStart, key := key), [SPACE] + (value + [LF]));
    ValueRun(s.(mode := WaitingValueStart, key := key), value);
  }

  // ------------------------------------------------------------ lines in general

  function SkipSpaces(s: seq<byte>): seq<byte>
  {
    if s != [] && s[0] == SPACE then SkipSpaces(s[1..]) else s
  }

  /** What precedes the first octet for which a line is split. */
  function Before(s: seq<byte>, x: byte, y: byte): (r: seq<byte>)
    ensures r <= s
  {
    if s == [] || s[0] == x || s[0] == y then [] else [s[0]] + Before(s[1..], x, y)
  }

  /** A header is what stands before the first closing bracket. */
  function HeaderIn(s: seq<byte>): seq<Event>
  {
    if CLOSE in s then [Header(CString(Before(s, CLOSE, CLOSE)))] else []
  }

  /** After the key there may be spaces, then an equals sign, and then the value without the
      spaces around it. */
  function ValueIn(key: seq<byte>, s: seq<byte>): seq<Event>
  {
    var rest := SkipSpaces(s);
    if rest == [] || rest[0] != EQUALS then []
    else [Property(CString(key), CString(TrimEnd(SkipSpaces(rest[1..]))))]
  }

  /** What a line of a record means: a header, a property, or nothing. Its first octet is
      part of the key whatever it is. */
  function LineMeans(line: seq<byte>): seq<Event>
  {
    var s := SkipSpaces(line);
    if s == [] then []
    else if s[0] == OPEN then HeaderIn(s[1..])
    else
      var more := Before(s[1..], SPACE, EQUALS);
      ValueIn([s[0]] + more, s[1 + |more|..])
  }

  predicate OpensHeader(line: seq<byte>)
  {
    SkipSpaces(line) != [] && SkipSpaces(line)[0] == OPEN
  }

  /** What the lines of a file mean; before the first header no property counts. */
  function LinesMean(inRecord: bool, lines: seq<seq<byte>>): seq<Event>
    decreases |lines|
  {
    if lines == [] then []
    else
      var counts := inRecord || OpensHeader(lines[0]);
      (if counts then LineMeans(lines[0]) else []) + LinesMean(counts, lines[1..])
  }

  /** From a state, the rest of a line gives some events and leads to a state. */
  ghost predicate Ends(s: State, rest: seq<byte>, mode: Mode, events: seq<Event>)
  {
    var r := Run(s, rest + [LF]);
    r.0.mode == mode && r.1 == events
  }

  lemma EndsNow(s: State, mode: Mode, events: seq<Event>)
    requires Step(s, LF).0.mode == mode && Step(s, LF).1 == events
    ensures Ends(s, [], mode, events)
  {
    RunOne(s, LF);
    assert [] + [LF] == [LF];
  }

  lemma EndsLater(s: State, rest: seq<byte>, mode: Mode, events: seq<Event>)
    requires rest != [] && Step(s, rest[0]).1 == [] && Ends(Step(s, rest[0]).0, rest[1..], mode, events)
    ensures Ends(s, rest, mode, events)
  {
    RunOne(s, rest[0]);
    QuietThen(s, [rest[0]], Step(s, rest[0]).0, rest[1..] + [LF]);
    assert [rest[0]] + (rest[1..] + [LF]) == rest + [LF];
  }

  /** States that wait for the end of the line. */
  lemma {:induction false} EndsIgnored(s: State, rest: seq<byte>)
    requires LF !in rest && (s.mode.EndHeaderLine? || s.mode.EndHeaderLine2? || s.mode.BadField?)
    ensures Ends(s, rest, FieldStart, [])
    decreases |rest|
  {
    if rest == [] {
      EndsNow(s, FieldStart, []);
    } else {
      EndsIgnored(Step(s, rest[0]).0, rest[1..]);
      EndsLater(s, rest, FieldStart, []);
    }
  }

  lemma {:induction false} EndsBadHeader(s: State, rest: seq<byte>)
    requires LF !in rest && s.mode.BadHeaderStart?
    ensures Ends(s, rest, HeaderStart, [])
    decreases |rest|
  {
    if rest == [] {
      EndsNow(s, HeaderStart, []);
    } else {
      EndsBadHeader(s, rest[1..]);
      EndsLater(s, rest, HeaderStart, []);
    }
  }

  lemma CloseHeader(s: State, rest: seq<byte>)
    requires LF !in rest && rest != [] && rest[0] == CLOSE && s.mode.ReadingHeader?
    ensures Ends(s, rest, FieldStart, [Header(CString(s.value))])
  {
    var t := s.(mode := EndHeaderLine);
    RunOne(s, CLOSE);
    EndsIgnored(t, rest[1..]);
    RunConcat(s, [CLOSE], rest[1..] + [LF]);
    assert [CLOSE] + (rest[1..] + [LF]) == rest + [LF];
  }

  /** What is reported of the rest of a header line. */
  function HeaderEvents(value: seq<byte>, rest: seq<byte>): seq<Event>
  {
    if CLOSE in rest then [Header(CString(value + Before(rest, CLOSE, CLOSE)))] else []
  }

  lemma HeaderEventsNext(value: seq<byte>, rest: seq<byte>)
    requires rest != [] && rest[0] != CLOSE
    ensures HeaderEvents(value + [rest[0]], rest[1..]) == HeaderEvents(value, rest)
  {
    var more := rest[1..];
    assert rest == [rest[0]] + more;
    assert value + [rest[0]] + Before(more, CLOSE, CLOSE) == value + Before(rest, CLOSE, CLOSE);
  }

  lemma {:induction false} EndsHeader(s: State, rest: seq<byte>)
    requires LF !in rest && s.mode.ReadingHeader?
    ensures Ends(s, rest, FieldStart, HeaderEvents(s.value, rest))
    decreases |rest|
  {
    if rest == [] {
      EndsNow(s, FieldStart, []);
    } else if rest[0] == CLOSE {
      assert s.value + [] == s.value;
      CloseHeader(s, rest);
    } else {
      EndsHeader(s.(value := s.value + [rest[0]]), rest[1..]);
      HeaderEventsNext(s.value, rest);
      EndsLater(s, rest, FieldStart, HeaderEvents(s.value, rest));
    }
  }

  lemma {:induction false} EndsValue(s: State, rest: seq<byte>)
    requires LF !in rest && s.mode.ReadingValue?
    ensures Ends(s, rest, FieldStart, [Property(CString(s.key), CString(TrimEnd(s.value + rest)))])
    decreases |rest|
  {
    if rest == [] {
      assert s.value + rest == s.value;
      EndsNow(s, FieldStart, [ProcessValue(s)]);
    } else {
      var t := s.(value := s.value + [rest[0]]);
      EndsValue(t, rest[1..]);
      assert s.value + [rest[0]] + rest[1..] == s.value + rest;
      EndsLater(s, rest, FieldStart, [Property(CString(s.key), CString(TrimEnd(s.value + rest)))]);
    }
  }

  lemma {:induction false} EndsValueStart(s: State, rest: seq<byte>)
    requires LF !in rest && s.mode.WaitingValueStart?
    ensures Ends(s, rest, FieldStart, [Property(CString(s.key), CString(TrimEnd(SkipSpaces(rest))))])
    decreases |rest|
  {
    var events := [Property(CString(s.key), CString(TrimEnd(SkipSpaces(rest))))];
    if rest == [] {
      EndsNow(s, FieldStart, events);
    } else {
      if rest[0] == SPACE {
        EndsValueStart(s, rest[1..]);
      } else {
        EndsValue(s.(mode := ReadingValue, value := [rest[0]]), rest[1..]);
        assert [rest[0]] + rest[1..] == rest;
      }
      EndsLater(s, rest, FieldStart, events);
    }
  }

  lemma {:induction false} EndsEquals(s: State, rest: seq<byte>)
    requires LF !in rest && s.mode.WaitingEquals?
    ensures Ends(s, rest, FieldStart, ValueIn(s.key, rest))
    decreases |rest|
  {
    if rest == [] {
      EndsNow(s, FieldStart, []);
    } else {
      if rest[0] == SPACE {
        EndsEquals(s, rest[1..]);
      } else if rest[0] == EQUALS {
        EndsValueStart(s.(mode := WaitingValueStart), rest[1..]);
      } else {
        EndsIgnored(s.(mode := BadField), rest[1..]);
      }
      EndsLater(s, rest, FieldStart, ValueIn(s.key, rest));
    }
  }

  lemma EndsNameHere(s: State, rest: seq<byte>)
    requires LF !in rest && s.mode.ReadingFieldName? && rest != [] && (rest[0] == SPACE || rest[0] == EQUALS)
    ensures Ends(s, rest, FieldStart, ValueIn(s.key, rest))
  {
    if rest[0] == SPACE {
      EndsEquals(s.(mode := WaitingEquals), rest[1..]);
    } else {
      EndsValueStart(s.(mode := WaitingValueStart), rest[1..]);
    }
    EndsLater(s, rest, FieldStart, ValueIn(s.key, rest));
  }

  lemma {:induction false} EndsName(s: State, rest: seq<byte>)
    requires LF !in rest && s.mode.ReadingFieldName?
    ensures var more := Before(rest, SPACE, EQUALS);
      Ends(s, rest, FieldStart, ValueIn(s.key + more, rest[|more|..]))
    decreases |rest|
  {
    var more := Before(rest, SPACE, EQUALS);
    if rest == [] {
      EndsNow(s, FieldStart, []);
    } else if rest[0] == SPACE || rest[0] == EQUALS {
      assert s.key + more == s.key && rest[|more|..] == rest;
      EndsNameHere(s, rest);
    } else {
      EndsName(s.(key := s.key + [rest[0]]), rest[1..]);
      NameGrows(s.key, rest);
      EndsLater(s, rest, FieldStart, ValueIn(s.key + more, rest[|more|..]));
    }
  }

  lemma NameGrows(key: seq<byte>, rest: seq<byte>)
    requires rest != [] && rest[0] != SPACE && rest[0] != EQUALS
    ensures var more, later := Before(rest, SPACE, EQUALS), Before(rest[1..], SPACE, EQUALS);
      key + [rest[0]] + later == key + more && rest[1..][|later|..] == rest[|more|..]
  {
  }

  lemma EndsOpen(s: State, rest: seq<byte>)
    requires LF !in rest && (s.mode.FieldStart? || s.mode.HeaderStart?) && rest != [] && rest[0] == OPEN
    ensures Ends(s, rest, FieldStart, LineMeans(rest))
  {
    EndsHeader(s.(mode := ReadingHeader, value := []), rest[1..]);
    assert [] + Before(rest[1..], CLOSE, CLOSE) == Before(rest[1..], CLOSE, CLOSE);
    EndsLater(s, rest, FieldStart, LineMeans(rest));
  }

  lemma EndsProperty(s: State, rest: seq<byte>)
    requires LF !in rest && s.mode.FieldStart? && rest != [] && rest[0] != OPEN && rest[0] != SPACE
    ensures Ends(s, rest, FieldStart, LineMeans(rest))
  {
    EndsName(s.(mode := ReadingFieldName, key := [rest[0]]), rest[1..]);
    var more := Before(rest[1..], SPACE, EQUALS);
    assert rest[1..][|more|..] == rest[1 + |more|..];
    EndsLater(s, rest, FieldStart, LineMeans(rest));
  }

  /** A line of a record is reported as what it means. */
  lemma {:induction false} EndsField(s: State, rest: seq<byte>)
    requires LF !in rest && s.mode.FieldStart?
    ensures Ends(s, rest, FieldStart, LineMeans(rest))
    decreases |rest|
  {
    if rest == [] {
      EndsNow(s, FieldStart, []);
    } else if rest[0] == SPACE {
      EndsField(s, rest[1..]);
      EndsLater(s, rest, FieldStart, LineMeans(rest));
    } else if rest[0] == OPEN {
      EndsOpen(s, rest);
    } else {
      EndsProperty(s, rest);
    }
  }

  /** Before the first header only a line that opens one counts. */
  lemma {:induction false} EndsStart(s: State, rest: seq<byte>)
    requires LF !in rest && s.mode.HeaderStart?
    ensures Ends(s, rest, if OpensHeader(rest) then FieldStart else HeaderStart,
                 if OpensHeader(rest) then LineMeans(rest) else [])
    decreases |rest|
  {
    if rest == [] {
      EndsNow(s, HeaderStart, []);
    } else if rest[0] == SPACE {
      EndsStart(s, rest[1..]);
      EndsLater(s, rest, if OpensHeader(rest) then FieldStart else HeaderStart,
                if OpensHeader(rest) then LineMeans(rest) else []);
    } else if rest[0] == OPEN {
      EndsOpen(s, rest);
    } else {
      EndsBadHeader(s.(mode := BadHeaderStart), rest[1..]);
      EndsLater(s, rest, HeaderStart, []);
    }
  }

  lemma {:induction false} RunMeans(s: State, file: seq<byte>)
    requires s.mode.HeaderStart? || s.mode.FieldStart?
    ensures Run(s, file + [LF]).1 == LinesMean(s.mode.FieldStart?, Lines(file))
    decreases |file|
  {
    var line := if LF in file then FirstLine(file) else file;
    if s.mode.FieldStart? {
      EndsField(s, line);
    } else {
      EndsStart(s, line);
    }
    var r := Run(s, line + [LF]);
    if LF in file {
      var more := file[|line| + 1..];
      LinesSplit(line, more);
      RunConcat(s, line + [LF], more + [LF]);
      assert file + [LF] == line + [LF] + (more + [LF]);
      RunMeans(r.0, more);
    } else {
      LinesOne(file);
      assert [file][1..] == [];
      assert r.1 + [] == r.1;
    }
  }

  /** The machine of eleven states reports of every file what its lines mean. */
  lemma FileMeans(file: seq<byte>)
    ensures Events(file) == LinesMean(false, Lines(file))
  {
    RunMeans(START, file);
  }

  // ----------------------------------------------------------------- integers

  const MINUS: byte := 45
  const PLUS: byte := 43
  const INT64_MIN: int := -0x8000_0000_0000_0000

  predicate IsDigit(ch: byte)
  {
    48 <= ch <= 57
  }

  predicate AllDigits(s: seq<byte>)
  {
    forall i :: 0 <= i < |s| ==> IsDigit(s[i])
  }

  function DecimalValue(s: seq<byte>): nat
    requires AllDigits(s)
  {
    if s == [] then 0 else 10 * DecimalValue(s[..|s| - 1]) + (s[|s| - 1] - 48)
  }

  /** White space as strtoll skips it. */
  function SkipSpace(s: seq<byte>): seq<byte>
  {
    if s != [] && (s[0] == SPACE || 9 <= s[0] <= 13) then SkipSpace(s[1..]) else s
  }

  /** ntb_key_value_parse_int_value: the whole text must be a number of 64 bits that is
      not above the limit. Negative numbers are let through. */
  function ParseInt(value: seq<byte>, max: int): Option<int>
  {
    var s := SkipSpace(value);
    var negative := s != [] && s[0] == MINUS;
    var digits := if s != [] && (s[0] == MINUS || s[0] == PLUS) then s[1..] else s;
    if digits == [] || !AllDigits(digits) then None
    else
      var size: int := DecimalValue(digits);
      var n := if negative then -size else size;
      InRange(n, max)
  }

  function Decimal(n: nat): (r: seq<byte>)
    ensures r != []
  {
    if n < 10 then [48 + n] else Decimal(n / 10) + [48 + n % 10]
  }

  /** %i and its kind. */
  function Printed(n: int): (r: seq<byte>)
    ensures r != []
  {
    if n < 0 then [MINUS] + Decimal(-n) else Decimal(n)
  }

  lemma {:induction false} DecimalRoundTrip(n: nat)
    ensures AllDigits(Decimal(n)) && DecimalValue(Decimal(n)) == n
  {
    if n < 10 {
      assert [48 + n as int][..0] == [];
    } else {
      DecimalRoundTrip(n / 10);
      assert Decimal(n)[..|Decimal(n)| - 1] == Decimal(n / 10);
    }
  }

  function InRange(n: int, max: int): Option<int>
  {
    if INT64_MIN <= n < TWO_63 && n <= max then Some(n) else None
  }

  lemma ParsePlain(digits: seq<byte>, max: int)
    requires digits != [] && AllDigits(digits)
    ensures ParseInt(digits, max) == InRange(DecimalValue(digits), max)
  {
    assert IsDigit(digits[0]);
    assert SkipSpace(digits) == digits;
  }

  lemma ParseNegative(digits: seq<byte>, max: int)
    requires digits != [] && AllDigits(digits)
    ensures ParseInt([MINUS] + digits, max) == InRange(-(DecimalValue(digits) as int), max)
  {
    var s := [MINUS] + digits;
    assert SkipSpace(s) == s && s[1..] == digits;
  }

  /** A printed number is read back exactly when it is within the limit. */
  lemma PrintedRoundTrip(n: int, max: int)
    ensures ParseInt(Printed(n), max) == InRange(n, max)
  {
    if n < 0 {
      DecimalRoundTrip(-n);
      ParseNegative(Decimal(-n), max);
    } else {
      DecimalRoundTrip(n);
      ParsePlain(Decimal(n), max);
    }
  }

  lemma PrintedProper(n: int)
    ensures ProperValue(Printed(n))
  {
    var digits := Decimal(if n < 0 then -n else n);
    DecimalRoundTrip(if n < 0 then -n else n);
    assert IsDigit(digits[0]) && IsDigit(digits[|digits| - 1]);
  }

  predicate AllSpace(s: seq<byte>)
  {
    forall i :: 0 <= i < |s| ==> s[i] == SPACE || 9 <= s[i] <= 13
  }

  /** The text is white space, perhaps a sign, and at least one digit, and nothing else. */
  ghost predicate NumberText(text: seq<byte>, space: seq<byte>, sign: seq<byte>, digits: seq<byte>, n: int)
  {
    && text == space + sign + digits && AllSpace(space) && sign in {[], [MINUS], [PLUS]}
    && digits != [] && AllDigits(digits)
    && n == if sign == [MINUS] then -(DecimalValue(digits) as int) else DecimalValue(digits)
  }

  lemma {:induction false} SpaceSkipped(space: seq<byte>, s: seq<byte>)
    requires AllSpace(space) && s != [] && !(s[0] == SPACE || 9 <= s[0] <= 13)
    ensures SkipSpace(space + s) == s
  {
    if space == [] {
      assert space + s == s;
    } else {
      assert (space + s)[1..] == space[1..] + s;
      SpaceSkipped(space[1..], s);
    }
  }

  lemma {:induction false} SpaceSplit(s: seq<byte>) returns (space: seq<byte>)
    ensures AllSpace(space) && s == space + SkipSpace(s)
  {
    if s != [] && (s[0] == SPACE || 9 <= s[0] <= 13) {
      var more := SpaceSplit(s[1..]);
      space := [s[0]] + more;
      assert s == [s[0]] + s[1..];
    } else {
      space := [];
    }
  }

  lemma NumberIsRead(text: seq<byte>, space: seq<byte>, sign: seq<byte>, digits: seq<byte>, n: int, max: int)
    requires NumberText(text, space, sign, digits, n)
    ensures ParseInt(text, max) == InRange(n, max)
  {
    var s := sign + digits;
    assert text == space + s;
    assert s[0] == if sign == [] then digits[0] else sign[0];
    assert IsDigit(digits[0]);
    SpaceSkipped(space, s);
    assert sign == [] ==> s == digits;
    assert sign != [] ==> s[1..] == digits;
  }

  /** A text is read as a number if and only if it is written as one, with nothing but white
      space before it and nothing behind it, and the number has 64 bits and is not above the
      limit. */
  lemma ParsesExactly(text: seq<byte>, max: int, n: int)
    ensures ParseInt(text, max) == Some(n) <==>
      && INT64_MIN <= n < TWO_63 && n <= max
      && exists space, sign, digits :: NumberText(text, space, sign, digits, n)
  {
    if ParseInt(text, max) == Some(n) {
      var space := SpaceSplit(text);
      var s := SkipSpace(text);
      var sign := if s[0] == MINUS || s[0] == PLUS then [s[0]] else [];
      var digits := if s[0] == MINUS || s[0] == PLUS then s[1..] else s;
      assert s == sign + digits;
      assert space + (sign + digits) == space + sign + digits;
      assert NumberText(text, space, sign, digits, n);
    }
    if space, sign, digits :| NumberText(text, space, sign, digits, n) {
      NumberIsRead(text, space, sign, digits, n, max);
    }
  }
}
