/** The acknowledgement: built by the sender inside its message, completed in place
    when its proof of work is found, posted by the recipient, and recognised again
    by the sender. */
module Acknowledgement {
  import opened Bytes
  import opened Proto
  import opened PowTarget
  import opened MessageLayout

  /** "msg" */
  const MSG_NAME: seq<byte> := [109, 115, 103]

  /** What follows the nonce. */
  function AckRest(timestamp: nat, stream: nat, ackdata: seq<byte>): seq<byte>
  {
    Be(timestamp, 8) + AddVarInt(stream) + ackdata
  }

  function AckPayload(nonce: nat, timestamp: nat, stream: nat, ackdata: seq<byte>): seq<byte>
  {
    Be(nonce, 8) + AckRest(timestamp, stream, ackdata)
  }

  /** The acknowledgement as first laid out: the checksum and the nonce are space
      left for later, so they hold whatever the buffer held. */
  function AckSkeleton(checksum: seq<byte>, nonce: seq<byte>, rest: seq<byte>): (r: seq<byte>)
    requires |checksum| == 4 && |nonce| == 8
    ensures |r| == 32 + |rest|
  {
    MAGIC + MSG_NAME + Zeros(9) + Be(8 + |rest|, 4) + checksum + nonce + rest
  }

  /** s with `part` written over it at `at`. */
  function Splice(s: seq<byte>, at: nat, part: seq<byte>): (r: seq<byte>)
    requires at + |part| <= |s|
    ensures |r| == |s|
  {
    s[..at] + part + s[at + |part|..]
  }

  method CopyInto(a: array<byte>, at: nat, part: seq<byte>)
    requires at + |part| <= a.Length
    modifies a
    ensures a[..] == Splice(old(a[..]), at, part)
  {
    var i := 0;
    while i < |part|
      invariant i <= |part|
      invariant a[..] == Splice(old(a[..]), at, part[..i])
    {
      a[at + i] := part[i];
      i := i + 1;
    }
    assert part[..i] == part;
  }

  /** What completing the acknowledgement does to the message. */
  function Completed(sha: seq<byte> -> seq<byte>, blob: seq<byte>, offset: nat, length: nat, nonce: nat): seq<byte>
    requires IsSha512(sha)
    requires HEADER_SIZE + 8 <= length && offset + length <= |blob|
  {
    var patched := Splice(blob, offset + HEADER_SIZE, Be(nonce, 8));
    Splice(patched, offset + 20, sha(patched[offset + HEADER_SIZE..offset + length])[..4])
  }

  /** ackdata_pow_cb: the nonce goes in first, then the checksum of the payload. */
  method CompleteAck(sha: seq<byte> -> seq<byte>, blob: array<byte>, offset: nat, length: nat, nonce: nat)
    requires IsSha512(sha)
    requires HEADER_SIZE + 8 <= length && offset + length <= blob.Length
    modifies blob
    ensures blob[..] == Completed(sha, old(blob[..]), offset, length, nonce)
  {
    CopyInto(blob, offset + HEADER_SIZE, Be(nonce, 8));
    var hash := sha(blob[offset + HEADER_SIZE..offset + length]);
    assert blob[offset + HEADER_SIZE..offset + length] == blob[..][offset + HEADER_SIZE..offset + length];
    CopyInto(blob, offset + 20, hash[..4]);
  }

  lemma SpliceMiddle(a: seq<byte>, b: seq<byte>, c: seq<byte>, part: seq<byte>)
    requires |b| == |part|
    ensures Splice(a + b + c, |a|, part) == a + part + c
  {
    var s := a + b + c;
    assert s[..|a|] == a && s[|a| + |b|..] == c;
  }

  /** Completing a skeleton anywhere inside a message leaves exactly a framed "msg"
      command there, with the right length and checksum, and nothing else changed. */
  lemma CompletedIsFrame(sha: seq<byte> -> seq<byte>, before: seq<byte>, after: seq<byte>,
                         checksum: seq<byte>, junk: seq<byte>, rest: seq<byte>, nonce: nat)
    requires IsSha512(sha) && |checksum| == 4 && |junk| == 8
    ensures Completed(sha, before + AckSkeleton(checksum, junk, rest) + after, |before|, 32 + |rest|, nonce)
      == before + Frame(sha, MSG_NAME, Be(nonce, 8) + rest) + after
  {
    var fixed := MAGIC + MSG_NAME + Zeros(9) + Be(8 + |rest|, 4);
    var payload := Be(nonce, 8) + rest;
    var blob := before + AckSkeleton(checksum, junk, rest) + after;
    assert blob == (before + fixed + checksum) + junk + (rest + after);
    SpliceMiddle(before + fixed + checksum, junk, rest + after, Be(nonce, 8));
    var patched := Splice(blob, |before| + HEADER_SIZE, Be(nonce, 8));
    assert patched == (before + fixed) + checksum + (payload + after);
    assert patched[|before| + HEADER_SIZE..|before| + 32 + |rest|] == payload;
    SpliceMiddle(before + fixed, checksum, payload + after, sha(payload)[..4]);
    assert Frame(sha, MSG_NAME, payload) == fixed + sha(payload)[..4] + payload;
  }

  // ----------------------------------------------------------- the recipient

  /** What the recipient hands to the network: only objects with a known command
      name are posted; here the four names are told apart by their text. */
  datatype Posted = Nothing | Object(name: seq<byte>, payload: seq<byte>)

  const OBJECT_NAMES: set<seq<byte>> :=
    { [103, 101, 116, 112, 117, 98, 107, 101, 121], [112, 117, 98, 107, 101, 121],
      MSG_NAME, [98, 114, 111, 97, 100, 99, 97, 115, 116] }

  function SendAcknowledgement(ack: seq<byte>): Posted
  {
    if |ack| < HEADER_SIZE || !CheckCommandString(ack[4..16]) then Nothing
    else
      var name := CString(ack[4..16]);
      if name in OBJECT_NAMES then Object(name, ack[HEADER_SIZE..]) else Nothing
  }

  lemma FrameIsPosted(sha: seq<byte> -> seq<byte>, payload: seq<byte>)
    requires IsSha512(sha)
    ensures SendAcknowledgement(Frame(sha, MSG_NAME, payload)) == Object(MSG_NAME, payload)
  {
    var ack := Frame(sha, MSG_NAME, payload);
    PaddedName(MSG_NAME);
    assert ack[4..16] == MSG_NAME + Zeros(9);
    assert ack[HEADER_SIZE..] == payload;
  }

  /** The names of the commands that carry objects. */
  ghost predicate ObjectName(name: seq<byte>)
  {
    name == Ascii("getpubkey") || name == Ascii("pubkey") || name == Ascii("msg") || name == Ascii("broadcast")
  }

  lemma ShortName()
    ensures MSG_NAME == Ascii("msg")
  {
  }

  lemma LongNames()
    ensures [112, 117, 98, 107, 101, 121] == Ascii("pubkey")
    ensures [103, 101, 116, 112, 117, 98, 107, 101, 121] == Ascii("getpubkey")
    ensures [98, 114, 111, 97, 100, 99, 97, 115, 116] == Ascii("broadcast")
  {
  }

  lemma ObjectNamesAre(name: seq<byte>)
    ensures name in OBJECT_NAMES <==> ObjectName(name)
    ensures ObjectName(name) ==> |name| < 12
  {
    ShortName();
    LongNames();
  }

  /** The octets have a command's name where a frame has it, and the payload behind a
      header's length; nothing else of the header is looked at. */
  ghost predicate Carries(ack: seq<byte>, name: seq<byte>, payload: seq<byte>)
  {
    && |ack| >= HEADER_SIZE && |name| < 12 && 0 !in name
    && ack[4..16] == name + Zeros(12 - |name|) && ack[HEADER_SIZE..] == payload
  }

  /** The recipient posts an object if and only if what it found carries one under the name
      of one of the four kinds; empty, short and unknown acknowledgements post nothing. */
  lemma PostsExactly(ack: seq<byte>, name: seq<byte>, payload: seq<byte>)
    ensures SendAcknowledgement(ack) == Object(name, payload) <==> ObjectName(name) && Carries(ack, name, payload)
  {
    ObjectNamesAre(name);
    if |ack| >= HEADER_SIZE {
      var field := ack[4..16];
      if CheckCommandString(field) && CString(field) == name {
        CStringAll(field, |name|);
      }
      if Carries(ack, name, payload) {
        PaddedName(name);
      }
    }
  }

  // -------------------------------------------------------------- the sender

  /** handle_msg: the object's header is read and the rest is its content. */
  function MsgContent(payload: seq<byte>): Option<seq<byte>>
  {
    var nonce := GetFixed(payload, 8);
    if nonce.Fail? then None
    else
      var timestamp := GetTimestamp(nonce.rest);
      if timestamp.Fail? then None
      else
        var stream := GetVarInt(timestamp.rest);
        if stream.Fail? then None else Some(stream.rest)
  }

  /** handle_msg reads the header through the general argument reader. */
  lemma MsgContentIsCommand(payload: seq<byte>)
    ensures var r := GetArguments([K64, KTimestamp, KVarInt], payload);
      MsgContent(payload) == if r.Fail? then None else Some(r.rest)
  {
    var kinds := [K64, KTimestamp, KVarInt];
    assert kinds[1..] == [KTimestamp, KVarInt] && kinds[1..][1..] == [KVarInt] && [KVarInt][1..] == [];
    var a := GetArgument(K64, payload);
    if a.Ok? {
      var b := GetArgument(KTimestamp, a.rest);
      if b.Ok? {
        LastArgument(KVarInt, b.rest);
      }
    }
  }

  lemma LastArgument(kind: Kind, s: seq<byte>)
    ensures GetArguments([kind], s) ==
      var p := GetArgument(kind, s); if p.Fail? then Fail else Ok([p.value], p.rest)
  {
    assert [kind][1..] == [];
    var p := GetArgument(kind, s);
    if p.Ok? {
      assert GetArguments([], p.rest) == Ok([], p.rest);
      assert [p.value] + [] == [p.value];
    }
  }

  lemma MsgContentOf(nonce: nat, rest: seq<byte>)
    requires nonce < TWO_64
    ensures MsgContent(Be(nonce, 8) + rest) ==
      var t := GetTimestamp(rest);
      if t.Fail? then None else var s := GetVarInt(t.rest); if s.Fail? then None else Some(s.rest)
  {
    Pow256Values();
    FixedRoundTrip(nonce, 8, rest);
  }

  lemma FirstOctet(x: nat)
    requires x < TWO_32
    ensures Be(x, 4)[0] == x / 0x100_0000
  {
    assert Be(x, 4)[0] == Be(x / 256, 3)[0];
    assert Be(x / 256, 3)[0] == Be(x / 256 / 256, 2)[0];
    assert Be(x / 256 / 256, 2)[0] == Be(x / 256 / 256 / 256, 1)[0];
    assert Be(x / 256 / 256 / 256, 1) == [] + [x / 256 / 256 / 256 % 256];
  }

  /** A timestamp beyond 32 bits is read as a 32-bit one, so its low word becomes
      part of the stream number or of the content. */
  lemma LateTimestampContent(lo: seq<byte>, stream: nat, ackdata: seq<byte>)
    requires |lo| == 4 && stream < 256 && |ackdata| == ACKDATA_SIZE
    ensures var r := GetVarInt(lo + (AddVarInt(stream) + ackdata));
      r.Ok? && (r.rest == ackdata <==> lo[0] == 0xfe && stream < 0xfd)
  {
    var s := lo + (AddVarInt(stream) + ackdata);
    var r := GetVarInt(s);
    assert s[0] == lo[0];
    assert |AddVarInt(stream)| == if stream < 0xfd then 1 else 3;
    if lo[0] == 0xfe && stream < 0xfd {
      assert s[1..][4..] == ackdata;
    } else if lo[0] == 0xff {
      assert |r.rest| != ACKDATA_SIZE;
    }
  }

  /** The sender reads its 32 octets back exactly when the timestamp it wrote fits
      in 32 bits, or by accident in one way: when the low word starts with 0xfe and
      the stream number is one octet. */
  lemma AckRecognised(nonce: nat, timestamp: nat, stream: nat, ackdata: seq<byte>)
    requires nonce < TWO_64 && timestamp < TWO_64 && stream < 256 && |ackdata| == ACKDATA_SIZE
    ensures MsgContent(AckPayload(nonce, timestamp, stream, ackdata)) == Some(ackdata) <==>
      timestamp < TWO_32 || (timestamp % TWO_32 / 0x100_0000 == 0xfe && stream < 0xfd)
  {
    var tail := AddVarInt(stream) + ackdata;
    assert AckRest(timestamp, stream, ackdata) == Be(timestamp, 8) + tail;
    MsgContentOf(nonce, AckRest(timestamp, stream, ackdata));
    TimestampRoundTrip(timestamp, tail);
    if timestamp < TWO_32 {
      VarIntRoundTrip(stream, ackdata);
    } else {
      FirstOctet(timestamp % TWO_32);
      LateTimestampContent(Be(timestamp % TWO_32, 4), stream, ackdata);
    }
  }

  // -------------------------------------------------------------- the journey

  /** The nonce solves the network's minimum work for what follows it. */
  ghost predicate SolvesMinimum(sha: seq<byte> -> seq<byte>, rest: seq<byte>, nonce: nat)
    requires IsSha512(sha)
  {
    && Divisor(|rest| + 8, MIN_EXTRA_BYTES, MIN_TRIALS) > 0
    && PowValue(sha, Be(nonce, 8), sha(rest)) <= CalculateTarget(|rest| + 8, MIN_EXTRA_BYTES, MIN_TRIALS)
  }

  ghost predicate NetworkAccepts(sha: seq<byte> -> seq<byte>, payload: seq<byte>)
    requires IsSha512(sha)
  {
    && |payload| >= 8 && Divisor(|payload|, MIN_EXTRA_BYTES, MIN_TRIALS) > 0
    && PowCheck(sha, payload, MIN_EXTRA_BYTES, MIN_TRIALS)
  }

  /** The message as the sender encrypts it: built around a skeleton, which is then
      completed in place at the offset where it was put. */
  function SentMessage(sha: seq<byte> -> seq<byte>, p: Plain, checksum: seq<byte>, junk: seq<byte>,
                       rest: seq<byte>, nonce: nat): seq<byte>
    requires IsSha512(sha) && |checksum| == 4 && |junk| == 8 && |rest| <= 48
  {
    var skeleton := AckSkeleton(checksum, junk, rest);
    Completed(sha, Build(p, skeleton), |BuildSender(p) + BuildBody(p)| + 1, |skeleton|, nonce)
  }

  lemma SentIsFramed(sha: seq<byte> -> seq<byte>, p: Plain, checksum: seq<byte>, junk: seq<byte>,
                     rest: seq<byte>, nonce: nat)
    requires IsSha512(sha) && |checksum| == 4 && |junk| == 8 && |rest| <= 48
    ensures SentMessage(sha, p, checksum, junk, rest, nonce)
      == Build(p, Frame(sha, MSG_NAME, Be(nonce, 8) + rest))
  {
    CompletedAfter(sha, BuildSender(p) + BuildBody(p), checksum, junk, rest, nonce);
  }

  lemma CompletedAfter(sha: seq<byte> -> seq<byte>, x: seq<byte>, checksum: seq<byte>, junk: seq<byte>,
                       rest: seq<byte>, nonce: nat)
    requires IsSha512(sha) && |checksum| == 4 && |junk| == 8 && |rest| <= 48
    ensures var n, skeleton := 32 + |rest|, AckSkeleton(checksum, junk, rest);
      Completed(sha, x + ([n] + skeleton), |x| + 1, n, nonce)
      == x + ([n] + Frame(sha, MSG_NAME, Be(nonce, 8) + rest))
  {
    var n, skeleton := 32 + |rest|, AckSkeleton(checksum, junk, rest);
    assert x + ([n] + skeleton) == (x + [n]) + skeleton + [];
    CompletedIsFrame(sha, x + [n], [], checksum, junk, rest, nonce);
  }

  lemma BuildSize(p: Plain, ack: seq<byte>, sig: seq<byte>)
    requires Sized(p) && |ack| < 0xfd && |p.content| + |sig| + 600 < TWO_31
    ensures |Signed(Build(p, ack), sig)| < TWO_31
  {
    assert |BuildSender(p)| <= 200;
    assert |BuildBody(p)| <= |p.content| + 40;
  }

  /** The whole journey. The sender's skeleton inside its message is completed with
      a nonce that solves the minimum work; the recipient parses the decrypted and
      signed message, finds the acknowledgement and posts its payload; the payload
      passes the network's proof-of-work test; and the sender reads its ackdata. */
  lemma AckJourney(sha: seq<byte> -> seq<byte>, p: Plain, checksum: seq<byte>, junk: seq<byte>,
                   nonce: nat, timestamp: nat, ackdata: seq<byte>, sig: seq<byte>)
    requires IsSha512(sha) && Sized(p) && |checksum| == 4 && |junk| == 8 && |ackdata| == ACKDATA_SIZE
    requires nonce < TWO_64 && timestamp < TWO_32 && |p.content| + |sig| + 600 < TWO_31
    requires SolvesMinimum(sha, AckRest(timestamp, p.stream, ackdata), nonce)
    ensures |AckRest(timestamp, p.stream, ackdata)| <= 48
    ensures
      var sent := SentMessage(sha, p, checksum, junk, AckRest(timestamp, p.stream, ackdata), nonce);
      var received := GetDecryptedMsg(Signed(sent, sig));
      var payload := AckPayload(nonce, timestamp, p.stream, ackdata);
      && received.Some? && received.value.plain == Heard(p) && received.value.signedLength == |sent|
      && SendAcknowledgement(received.value.ack) == Object(MSG_NAME, payload)
      && NetworkAccepts(sha, payload)
      && MsgContent(payload) == Some(ackdata)
  {
    var rest := AckRest(timestamp, p.stream, ackdata);
    var payload := AckPayload(nonce, timestamp, p.stream, ackdata);
    var frame := Frame(sha, MSG_NAME, payload);
    assert |rest| <= 8 + 9 + 32 && |rest| == 8 + |AddVarInt(p.stream)| + 32 && |AddVarInt(p.stream)| <= 3;
    SentIsFramed(sha, p, checksum, junk, rest, nonce);
    BuildSize(p, frame, sig);
    LayoutRoundTrip(p, frame, sig);
    FrameIsPosted(sha, payload);
    ClampedNoncePasses(sha, rest, nonce, MIN_EXTRA_BYTES, MIN_TRIALS);
    AckRecognised(nonce, timestamp, p.stream, ackdata);
  }
}
