/** The Bitmessage wire format: variable-length integers, timestamps, typed
    command arguments, command framing, and the plain text of a message. */
module Proto {
  import opened Bytes

  const HEADER_SIZE: nat := 24
  const HASH_LENGTH: nat := 32
  const ACKDATA_SIZE: nat := 32
  const RIPE_LENGTH: nat := 20
  const KEY_LENGTH: nat := 64
  const MIN_TRIALS: nat := 320
  const MIN_EXTRA_BYTES: nat := 14000
  const PUBKEY_BEHAVIORS: nat := 1
  const MAGIC: seq<byte> := [0xe9, 0xbe, 0xb4, 0xd9]

  /** What a parser leaves: a failure, or a value and the octets not yet read. */
  datatype Parsed<+T> = Fail | Ok(value: T, rest: seq<byte>)

  // ---------------------------------------------------------------- numbers

  function AddVarInt(v: nat): (r: seq<byte>)
    ensures 1 <= |r| <= 9
  {
    if v < 0xfd then [v]
    else if v <= 0xffff then [0xfd] + Be(v, 2)
    else if v <= 0xffff_ffff then [0xfe] + Be(v, 4)
    else [0xff] + Be(v, 8)
  }

  function GetFixed(s: seq<byte>, width: nat): (r: Parsed<nat>)
    ensures r.Ok? ==> |s| == |r.rest| + width
  {
    if |s| < width then Fail else Ok(FromBe(s[..width]), s[width..])
  }

  /** The length is held in a signed int, so 2^31 octets or more are refused. */
  function GetVarInt(s: seq<byte>): (r: Parsed<nat>)
    ensures r.Ok? ==> |r.rest| < |s| && r.rest == s[|s| - |r.rest|..]
  {
    if |s| >= TWO_31 || |s| == 0 then Fail
    else if s[0] < 0xfd then Ok(s[0], s[1..])
    else GetFixed(s[1..], if s[0] == 0xfd then 2 else if s[0] == 0xfe then 4 else 8)
  }

  /** A timestamp whose first 32 bits are zero is taken to be 64 bits wide. */
  function GetTimestamp(s: seq<byte>): Parsed<nat>
  {
    var first := GetFixed(s, 4);
    if first.Fail? || first.value != 0 then first else GetFixed(first.rest, 4)
  }

  function GetVarStr(s: seq<byte>): Parsed<seq<byte>>
  {
    var n := GetVarInt(s);
    if n.Fail? || |n.rest| < n.value then Fail
    else Ok(n.rest[..n.value], n.rest[n.value..])
  }

  function GetVarInts(count: nat, s: seq<byte>): Parsed<seq<nat>>
    decreases count
  {
    if count == 0 then Ok([], s)
    else
      var n := GetVarInt(s);
      if n.Fail? then Fail
      else
        var more := GetVarInts(count - 1, n.rest);
        if more.Fail? then Fail else Ok([n.value] + more.value, more.rest)
  }

  lemma FixedRoundTrip(v: nat, width: nat, tail: seq<byte>)
    requires v < Pow256(width)
    ensures GetFixed(Be(v, width) + tail, width) == Ok(v, tail)
  {
    BeRoundTrip(v, width);
    assert (Be(v, width) + tail)[..width] == Be(v, width);
  }

  /** Every 64-bit number survives the variable-length form, whatever follows,
      as long as the reader's length fits a signed int. */
  lemma VarIntRoundTrip(v: nat, tail: seq<byte>)
    requires v < TWO_64
    requires |AddVarInt(v) + tail| < TWO_31
    ensures GetVarInt(AddVarInt(v) + tail) == Ok(v, tail)
  {
    Pow256Values();
    var width := if v <= 0xffff then 2 else if v <= 0xffff_ffff then 4 else 8;
    if v >= 0xfd {
      FixedRoundTrip(v, width, tail);
      assert (AddVarInt(v) + tail)[1..] == Be(v, width) + tail;
    }
  }

  /** A 64-bit number is its high word followed by its low word. */
  lemma BeWords(v: nat)
    requires v < TWO_64
    ensures Be(v, 8) == Be(v / TWO_32, 4) + Be(v % TWO_32, 4)
  {
    Pow256Values();
    BeRoundTrip(v, 8);
    SplitWords(Be(v, 8), v);
  }

  lemma SplitWords(s: seq<byte>, v: nat)
    requires |s| == 8 && FromBe(s) == v
    ensures v < TWO_64 && s == Be(v / TWO_32, 4) + Be(v % TWO_32, 4)
  {
    var hi, lo := s[..4], s[4..];
    Pow256Values();
    assert s == hi + lo;
    FromBeConcat(hi, lo);
    FromBeBound(hi);
    FromBeBound(lo);
    var a, b := FromBe(hi), FromBe(lo);
    assert v == a * TWO_32 + b;
    assert v / TWO_32 == a && v % TWO_32 == b;
    FromBeRoundTrip(hi);
    FromBeRoundTrip(lo);
  }

  /** Timestamps are written with 64 bits. The reader returns them, and stops at
      the right place, exactly when they fit in 32 bits. */
  lemma TimestampRoundTrip(v: nat, tail: seq<byte>)
    requires v < TWO_64
    ensures GetTimestamp(Be(v, 8) + tail) == Ok(v, tail) <==> v < TWO_32
    ensures v >= TWO_32 ==>
      GetTimestamp(Be(v, 8) + tail) == Ok(v / TWO_32, Be(v % TWO_32, 4) + tail)
  {
    Pow256Values();
    BeWords(v);
    BeRoundTrip(v / TWO_32, 4);
    BeRoundTrip(v % TWO_32, 4);
    TimestampWords(Be(v / TWO_32, 4), Be(v % TWO_32, 4), tail);
  }

  lemma TimestampWords(hi: seq<byte>, lo: seq<byte>, tail: seq<byte>)
    requires |hi| == |lo| == 4
    ensures GetTimestamp(hi + lo + tail)
      == if FromBe(hi) == 0 then Ok(FromBe(lo), tail) else Ok(FromBe(hi), lo + tail)
  {
    var s := hi + lo + tail;
    assert s[..4] == hi && s[4..] == lo + tail;
    assert s[4..][..4] == lo && s[4..][4..] == tail;
  }

  // ------------------------------------------------------ command arguments

  datatype Kind = K8 | K16 | K32 | K64 | KBool | KVarInt | KTimestamp
                | KNetAddress | KVarStr | KVarIntList

  datatype Value = Num(n: nat) | Flag(b: bool) | NetAddress(host: seq<byte>, port: nat)
                 | Str(s: seq<byte>) | Ints(ints: seq<nat>)

  function NumOf(p: Parsed<nat>): Parsed<Value>
  {
    if p.Fail? then Fail else Ok(Num(p.value), p.rest)
  }

  function GetArgument(kind: Kind, s: seq<byte>): Parsed<Value>
  {
    match kind
    case K8 => NumOf(GetFixed(s, 1))
    case K16 => NumOf(GetFixed(s, 2))
    case K32 => NumOf(GetFixed(s, 4))
    case K64 => NumOf(GetFixed(s, 8))
    case KBool =>
      var p := GetFixed(s, 1);
      if p.Fail? then Fail else Ok(Flag(p.value != 0), p.rest)
    case KVarInt => NumOf(GetVarInt(s))
    case KTimestamp => NumOf(GetTimestamp(s))
    case KNetAddress =>
      if |s| < 18 then Fail
      else Ok(NetAddress(s[..16], FromBe(s[16..18])), s[18..])
    case KVarStr =>
      var p := GetVarStr(s);
      if p.Fail? then Fail else Ok(Str(p.value), p.rest)
    case KVarIntList =>
      var n := GetVarInt(s);
      if n.Fail? then Fail
      else
        var p := GetVarInts(n.value, n.rest);
        if p.Fail? then Fail else Ok(Ints(p.value), p.rest)
  }

  function GetArguments(kinds: seq<Kind>, s: seq<byte>): (r: Parsed<seq<Value>>)
    ensures r.Ok? ==> |r.value| == |kinds|
  {
    if kinds == [] then Ok([], s)
    else
      var first := GetArgument(kinds[0], s);
      if first.Fail? then Fail
      else
        var more := GetArguments(kinds[1..], first.rest);
        if more.Fail? then Fail else Ok([first.value] + more.value, more.rest)
  }

  /** The source's argument loop: `data` advances past one argument at a time. */
  method GetCommand(kinds: seq<Kind>, start: seq<byte>) returns (r: Parsed<seq<Value>>)
    ensures r == GetArguments(kinds, start)
  {
    var data, i, values := start, 0, [];
    assert kinds[0..] == kinds;
    ghost var all := GetArguments(kinds, start);
    assert all.Ok? ==> [] + all.value == all.value;
    while i < |kinds|
      invariant i <= |kinds|
      invariant var more := GetArguments(kinds[i..], data);
        GetArguments(kinds, start) == if more.Fail? then Fail else Ok(values + more.value, more.rest)
    {
      var arg := GetArgument(kinds[i], data);
      assert kinds[i..][0] == kinds[i] && kinds[i..][1..] == kinds[i + 1..];
      if arg.Fail? {
        return Fail;
      }
      ghost var more := GetArguments(kinds[i + 1..], arg.rest);
      assert more.Ok? ==> values + ([arg.value] + more.value) == values + [arg.value] + more.value;
      values, data, i := values + [arg.value], arg.rest, i + 1;
    }
    assert kinds[i..] == [] && values + [] == values;
    return Ok(values, data);
  }

  /** What the writer can express for each kind and the reader can give back: a
      string's length is one octet that must not look like a longer integer. */
  predicate Writable(kind: Kind, v: Value)
  {
    match kind
    case K8 => v.Num? && v.n < 256
    case K16 => v.Num? && v.n < 0x1_0000
    case K32 => v.Num? && v.n < TWO_32
    case K64 => v.Num? && v.n < TWO_64
    case KBool => v.Flag?
    case KVarInt => v.Num? && v.n < TWO_64
    case KTimestamp => v.Num? && v.n < TWO_32
    case KNetAddress => v.NetAddress? && |v.host| == 16 && v.port < 0x1_0000
    case KVarStr => v.Str? && |v.s| < 0xfd
    case KVarIntList => false
  }

  function AddArgument(kind: Kind, v: Value): seq<byte>
    requires Writable(kind, v)
  {
    match kind
    case K8 => Be(v.n, 1)
    case K16 => Be(v.n, 2)
    case K32 => Be(v.n, 4)
    case K64 => Be(v.n, 8)
    case KBool => [if v.b then 1 else 0]
    case KVarInt => AddVarInt(v.n)
    case KTimestamp => Be(v.n, 8)
    case KNetAddress => v.host + Be(v.port, 2)
    case KVarStr => [|v.s|] + v.s
  }

  function AddArguments(kinds: seq<Kind>, values: seq<Value>): seq<byte>
    requires |kinds| == |values|
    requires forall i :: 0 <= i < |kinds| ==> Writable(kinds[i], values[i])
  {
    if kinds == [] then []
    else AddArgument(kinds[0], values[0]) + AddArguments(kinds[1..], values[1..])
  }

  lemma NetAddressRoundTrip(host: seq<byte>, port: nat, tail: seq<byte>)
    requires |host| == 16 && port < 0x1_0000
    ensures GetArgument(KNetAddress, host + Be(port, 2) + tail) == Ok(NetAddress(host, port), tail)
  {
    var s := host + Be(port, 2) + tail;
    Pow256Values();
    BeRoundTrip(port, 2);
    assert s[..16] == host && s[16..18] == Be(port, 2) && s[18..] == tail;
  }

  lemma VarStrRoundTrip(str: seq<byte>, tail: seq<byte>)
    requires |str| < 0xfd && |str| + |tail| + 1 < TWO_31
    ensures GetVarStr([|str|] + str + tail) == Ok(str, tail)
  {
    var s := [|str|] + str + tail;
    assert s[1..] == str + tail;
    assert (str + tail)[..|str|] == str && (str + tail)[|str|..] == tail;
  }

  lemma FlagRoundTrip(b: byte, tail: seq<byte>)
    ensures GetFixed([b] + tail, 1) == Ok(b, tail)
  {
    assert ([b] + tail)[..1] == [b];
    assert FromBe([b]) == 256 * FromBe([b][..0]) + b;
  }

  lemma ArgumentRoundTrip(kind: Kind, v: Value, tail: seq<byte>)
    requires Writable(kind, v)
    requires |AddArgument(kind, v) + tail| < TWO_31
    ensures GetArgument(kind, AddArgument(kind, v) + tail) == Ok(v, tail)
  {
    Pow256Values();
    match kind
    case K8 => FixedRoundTrip(v.n, 1, tail);
    case K16 => FixedRoundTrip(v.n, 2, tail);
    case K32 => FixedRoundTrip(v.n, 4, tail);
    case K64 => FixedRoundTrip(v.n, 8, tail);
    case KBool => FlagRoundTrip(if v.b then 1 else 0, tail);
    case KVarInt => VarIntRoundTrip(v.n, tail);
    case KTimestamp => TimestampRoundTrip(v.n, tail);
    case KNetAddress => NetAddressRoundTrip(v.host, v.port, tail);
    case KVarStr => VarStrRoundTrip(v.s, tail);
  }

  /** Whatever list of arguments a command is built from, reading the same list
      of kinds gives the arguments back and stops where the payload goes on. */
  lemma {:induction false} ArgumentsRoundTrip(kinds: seq<Kind>, values: seq<Value>, tail: seq<byte>)
    requires |kinds| == |values|
    requires forall i :: 0 <= i < |kinds| ==> Writable(kinds[i], values[i])
    requires |AddArguments(kinds, values) + tail| < TWO_31
    ensures GetArguments(kinds, AddArguments(kinds, values) + tail) == Ok(values, tail)
  {
    if kinds == [] {
      assert AddArguments(kinds, values) + tail == tail;
    } else {
      var more := AddArguments(kinds[1..], values[1..]) + tail;
      assert AddArguments(kinds, values) + tail == AddArgument(kinds[0], values[0]) + more;
      ArgumentRoundTrip(kinds[0], values[0], more);
      ArgumentsRoundTrip(kinds[1..], values[1..], tail);
      GetArgumentsCons(kinds, AddArguments(kinds, values) + tail, values, more, tail);
    }
  }

  lemma GetArgumentsCons(kinds: seq<Kind>, s: seq<byte>, values: seq<Value>, more: seq<byte>, tail: seq<byte>)
    requires kinds != [] && values != []
    requires GetArgument(kinds[0], s) == Ok(values[0], more)
    requires GetArguments(kinds[1..], more) == Ok(values[1..], tail)
    ensures GetArguments(kinds, s) == Ok(values, tail)
  {
    assert [values[0]] + values[1..] == values;
  }

  // ---------------------------------------------------------------- framing

  /** SHA-512 is foreign code: any function with 64-octet results will do. */
  ghost predicate IsSha512(sha: seq<byte> -> seq<byte>)
  {
    forall s :: |sha(s)| == 64
  }

  /** A C string: the octets before the first zero. */
  function CString(s: seq<byte>): (r: seq<byte>)
    ensures r <= s && 0 !in r
    ensures |r| < |s| ==> s[|r|] == 0
  {
    if s == [] || s[0] == 0 then [] else [s[0]] + CString(s[1..])
  }

  /** The name must be followed by a zero and by nothing but zeros. */
  predicate CheckCommandString(s: seq<byte>)
  {
    var n := |CString(s)|;
    n < |s| && forall i :: n <= i < |s| ==> s[i] == 0
  }

  function Frame(sha: seq<byte> -> seq<byte>, name: seq<byte>, payload: seq<byte>): (r: seq<byte>)
    requires IsSha512(sha) && |name| <= 12
    ensures |r| == HEADER_SIZE + |payload|
  {
    MAGIC + name + Zeros(12 - |name|) + Be(|payload|, 4) + sha(payload)[..4] + payload
  }

  /** A received command: its name and payload. */
  datatype Command = Command(name: seq<byte>, payload: seq<byte>)

  datatype Framing = Incomplete | Broken | Framed(command: Command, size: nat)

  const MAX_MESSAGE_SIZE: nat := 128 * 1024 * 1024

  /** One turn of process_commands on the buffered octets. */
  function NextCommand(sha: seq<byte> -> seq<byte>, s: seq<byte>): (r: Framing)
    requires IsSha512(sha)
    ensures r.Framed? ==> HEADER_SIZE <= r.size <= |s|
  {
    if |s| < HEADER_SIZE then Incomplete
    else
      var length := FromBe(s[16..20]);
      if length > MAX_MESSAGE_SIZE then Broken
      else if |s| < HEADER_SIZE + length then Incomplete
      else
        var payload := s[HEADER_SIZE..HEADER_SIZE + length];
        if s[..4] != MAGIC || !CheckCommandString(s[4..16]) || s[20..24] != sha(payload)[..4]
        then Broken
        else Framed(Command(CString(s[4..16]), payload), HEADER_SIZE + length)
  }

  lemma {:induction false} CStringOf(name: seq<byte>, tail: seq<byte>)
    requires 0 !in name
    ensures CString(name + [0] + tail) == name
  {
    if name != [] {
      CStringOf(name[1..], tail);
      assert (name + [0] + tail)[1..] == name[1..] + [0] + tail;
    }
  }

  lemma PaddedName(name: seq<byte>)
    requires |name| < 12 && 0 !in name
    ensures CheckCommandString(name + Zeros(12 - |name|))
    ensures CString(name + Zeros(12 - |name|)) == name
  {
    assert Zeros(12 - |name|) == [0] + Zeros(11 - |name|);
    assert name + Zeros(12 - |name|) == name + [0] + Zeros(11 - |name|);
    CStringOf(name, Zeros(11 - |name|));
  }

  /** A frame is recognised whatever follows it, and yields what was framed. */
  lemma FrameRoundTrip(sha: seq<byte> -> seq<byte>, name: seq<byte>, payload: seq<byte>, tail: seq<byte>)
    requires IsSha512(sha)
    requires |name| < 12 && 0 !in name
    requires |payload| <= MAX_MESSAGE_SIZE
    ensures NextCommand(sha, Frame(sha, name, payload) + tail)
      == Framed(Command(name, payload), HEADER_SIZE + |payload|)
  {
    var s := Frame(sha, name, payload) + tail;
    var padded := name + Zeros(12 - |name|);
    Pow256Values();
    BeRoundTrip(|payload|, 4);
    PaddedName(name);
    assert s == MAGIC + padded + Be(|payload|, 4) + sha(payload)[..4] + payload + tail;
    assert s[..4] == MAGIC && s[4..16] == padded && s[16..20] == Be(|payload|, 4);
    assert s[20..24] == sha(payload)[..4];
    assert s[24..24 + |payload|] == payload;
  }

  /** Octets that arrive later never change a decision already made. */
  lemma NextCommandStable(sha: seq<byte> -> seq<byte>, s: seq<byte>, tail: seq<byte>)
    requires IsSha512(sha)
    requires !NextCommand(sha, s).Incomplete?
    ensures NextCommand(sha, s + tail) == NextCommand(sha, s)
  {
    var t := s + tail;
    assert t[..4] == s[..4] && t[4..16] == s[4..16] && t[16..20] == s[16..20] && t[20..24] == s[20..24];
    var length := FromBe(s[16..20]);
    if length <= MAX_MESSAGE_SIZE {
      assert t[HEADER_SIZE..HEADER_SIZE + length] == s[HEADER_SIZE..HEADER_SIZE + length];
    }
  }

  lemma {:induction false} CStringAll(s: seq<byte>, n: nat)
    requires n == |CString(s)| && n < |s| && forall i :: n <= i < |s| ==> s[i] == 0
    ensures s == CString(s) + Zeros(|s| - n)
  {
    assert s[..n] == CString(s) && s == s[..n] + s[n..];
    assert s[n..] == Zeros(|s| - n);
  }

  /** The octets begin with a whole frame. */
  ghost predicate Begins(sha: seq<byte> -> seq<byte>, s: seq<byte>, c: Command)
    requires IsSha512(sha)
  {
    && |c.name| < 12 && 0 !in c.name && |c.payload| <= MAX_MESSAGE_SIZE
    && Frame(sha, c.name, c.payload) <= s
  }

  lemma FrameParts(sha: seq<byte> -> seq<byte>, s: seq<byte>, name: seq<byte>, length: nat)
    requires IsSha512(sha) && |name| <= 12 && HEADER_SIZE + length <= |s|
    requires s[..4] == MAGIC && s[4..16] == name + Zeros(12 - |name|) && s[16..20] == Be(length, 4)
    requires s[20..24] == sha(s[24..24 + length])[..4]
    ensures Frame(sha, name, s[24..24 + length]) <= s
  {
    var payload := s[24..24 + length];
    assert s[..24 + length] == s[..4] + s[4..16] + s[16..20] + s[20..24] + payload;
    assert Frame(sha, name, payload) == s[..24 + length];
  }

  /** What is recognised as a command is a frame of it, at the front of the octets. */
  lemma FramedBegins(sha: seq<byte> -> seq<byte>, s: seq<byte>)
    requires IsSha512(sha) && NextCommand(sha, s).Framed?
    ensures Begins(sha, s, NextCommand(sha, s).command)
  {
    var c := NextCommand(sha, s).command;
    var field, length := s[4..16], FromBe(s[16..20]);
    CStringAll(field, |CString(field)|);
    FromBeRoundTrip(s[16..20]);
    FrameParts(sha, s, c.name, length);
  }

  /** A command is recognised if and only if the octets begin with a frame of it. They
      are given up as broken if and only if the length is too large, or there are as many
      octets as the length says and no frame begins them. */
  lemma NextCommandExactly(sha: seq<byte> -> seq<byte>, s: seq<byte>)
    requires IsSha512(sha)
    ensures forall c: Command :: NextCommand(sha, s) == Framed(c, HEADER_SIZE + |c.payload|) <==> Begins(sha, s, c)
    ensures NextCommand(sha, s).Broken? <==>
      && HEADER_SIZE <= |s|
      && (FromBe(s[16..20]) > MAX_MESSAGE_SIZE
        || (HEADER_SIZE + FromBe(s[16..20]) <= |s| && forall c: Command :: !Begins(sha, s, c)))
  {
    forall c: Command | Begins(sha, s, c)
      ensures NextCommand(sha, s) == Framed(c, HEADER_SIZE + |c.payload|)
    {
      var frame := Frame(sha, c.name, c.payload);
      assert s == frame + s[|frame|..];
      FrameRoundTrip(sha, c.name, c.payload, s[|frame|..]);
    }
    if NextCommand(sha, s).Framed? {
      FramedBegins(sha, s);
    }
  }
}
