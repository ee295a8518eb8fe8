/** The plain text of a message: how the sender lays it out and how the recipient
    takes it apart, with the range of octets that the signature covers. */
module MessageLayout {
  import opened Bytes
  import opened Proto

  datatype Plain = Plain(version: nat, stream: nat, signingKey: seq<byte>, encryptionKey: seq<byte>,
                         trials: nat, extraBytes: nat, ripe: seq<byte>, encoding: nat, content: seq<byte>)

  datatype Msg = Msg(messageVersion: nat, behaviors: nat, plain: Plain, ack: seq<byte>, sig: seq<byte>,
                     signedLength: nat)

  /** The field widths of the C structures the message is built from. */
  predicate Sized(p: Plain)
  {
    && p.version < 256 && p.stream < 256 && p.trials < TWO_64 && p.extraBytes < TWO_64 && p.encoding < TWO_64
    && |p.signingKey| == |p.encryptionKey| == KEY_LENGTH && |p.ripe| == RIPE_LENGTH
  }

  // --------------------------------------------------------------- building

  function Difficulty(p: Plain): seq<byte>
  {
    if p.version >= 3 then AddVarInt(p.trials) + AddVarInt(p.extraBytes) else []
  }

  function BuildHead(p: Plain): seq<byte>
  {
    AddVarInt(1) + AddVarInt(p.version) + AddVarInt(p.stream) + Be(PUBKEY_BEHAVIORS, 4)
  }

  function BuildSender(p: Plain): seq<byte>
  {
    BuildHead(p) + (p.signingKey + p.encryptionKey) + Difficulty(p)
  }

  function BuildBody(p: Plain): seq<byte>
  {
    p.ripe + AddVarInt(p.encoding) + AddVarInt(|p.content|) + p.content
  }

  /** The message the sender encrypts and signs; the acknowledgement's length is
      always a single octet. */
  function Build(p: Plain, ack: seq<byte>): seq<byte>
    requires |ack| < 0xfd
  {
    BuildSender(p) + BuildBody(p) + ([|ack|] + ack)
  }

  /** The signature is appended with its length as a variable-length integer. */
  function Signed(message: seq<byte>, sig: seq<byte>): seq<byte>
  {
    message + AddVarInt(|sig|) + sig
  }

  // ---------------------------------------------------------------- parsing

  function GetOctets(s: seq<byte>, n: nat): Parsed<seq<byte>>
  {
    if |s| < n then Fail else Ok(s[..n], s[n..])
  }

  function GetKeys(s: seq<byte>): Parsed<(seq<byte>, seq<byte>)>
  {
    if |s| < 2 * KEY_LENGTH then Fail
    else Ok((s[..KEY_LENGTH], s[KEY_LENGTH..2 * KEY_LENGTH]), s[2 * KEY_LENGTH..])
  }

  /** Two variable-length integers in a row. */
  function GetPair(s: seq<byte>): Parsed<(nat, nat)>
  {
    GetTwo(GetVarInt, s)
  }

  type Getter<!T> = seq<byte> -> Parsed<T>

  function GetTwo(get: Getter<nat>, s: seq<byte>): Parsed<(nat, nat)>
  {
    var a := get(s);
    if a.Fail? then Fail
    else
      var b := get(a.rest);
      if b.Fail? then Fail else Ok((a.value, b.value), b.rest)
  }

  /** Versions before 3 carry no difficulty and get the network's minimum. */
  function GetDifficulty(version: nat, s: seq<byte>): Parsed<(nat, nat)>
  {
    if version < 3 then Ok((MIN_TRIALS, MIN_EXTRA_BYTES), s) else GetPair(s)
  }

  datatype Head = Head(messageVersion: nat, version: nat, stream: nat, behaviors: nat)

  function GetHead(data: seq<byte>): Parsed<Head>
  {
    var v := GetVarInt(data);
    if v.Fail? then Fail
    else
      var p := GetPair(v.rest);
      if p.Fail? then Fail
      else
        var b := GetFixed(p.rest, 4);
        if b.Fail? then Fail else Ok(Head(v.value, p.value.0, p.value.1, b.value), b.rest)
  }

  /** The ripe, the encoding and the length-prefixed content. */
  function GetBody(s: seq<byte>): Parsed<(seq<byte>, nat, seq<byte>)>
  {
    GetBodyBy(GetVarInt, GetVarStr, s)
  }

  function GetBodyBy(getInt: Getter<nat>, getStr: Getter<seq<byte>>, s: seq<byte>): Parsed<(seq<byte>, nat, seq<byte>)>
  {
    var ripe := GetOctets(s, RIPE_LENGTH);
    if ripe.Fail? then Fail
    else
      var encoding := getInt(ripe.rest);
      if encoding.Fail? then Fail
      else
        var content := getStr(encoding.rest);
        if content.Fail? then Fail else Ok((ripe.value, encoding.value, content.value), content.rest)
  }

  datatype Sender = Sender(head: Head, keys: (seq<byte>, seq<byte>), difficulty: (nat, nat))

  type Pair = (seq<byte>, seq<byte>)

  function GetSenderBy(getHead: Getter<Head>, getKeys: Getter<Pair>,
                       getDifficulty: (nat, seq<byte>) -> Parsed<(nat, nat)>, data: seq<byte>): Parsed<Sender>
  {
    var head := getHead(data);
    if head.Fail? then Fail
    else
      var keys := getKeys(head.rest);
      if keys.Fail? then Fail
      else
        var difficulty := getDifficulty(head.value.version, keys.rest);
        if difficulty.Fail? then Fail
        else Ok(Sender(head.value, keys.value, difficulty.value), difficulty.rest)
  }

  function GetSender(data: seq<byte>): Parsed<Sender>
  {
    GetSenderBy(GetHead, GetKeys, GetDifficulty, data)
  }

  /** The signature must reach exactly to the end of the data. */
  function GetSignature(s: seq<byte>): Option<seq<byte>>
  {
    var n := GetVarInt(s);
    if n.Fail? || |n.rest| != n.value then None else Some(n.rest)
  }

  type Body = (seq<byte>, nat, seq<byte>)

  function MsgOf(v: Sender, body: Body, ack: seq<byte>, sig: seq<byte>, signed: nat): Msg
  {
    Msg(v.head.messageVersion, v.head.behaviors,
        Plain(v.head.version, v.head.stream, v.keys.0, v.keys.1, v.difficulty.0, v.difficulty.1, body.0, body.1, body.2),
        ack, sig, signed)
  }

  /** The parts of a message, each read by its own function. */
  function GetParts(getSender: Getter<Sender>, getBody: Getter<Body>, getAck: Getter<seq<byte>>,
                    getSignature: seq<byte> -> Option<seq<byte>>, data: seq<byte>): Option<Msg>
  {
    var sender := getSender(data);
    if sender.Fail? then None
    else
      var body := getBody(sender.rest);
      if body.Fail? then None
      else
        var ack := getAck(body.rest);
        if ack.Fail? || |ack.rest| > |data| then None
        else
          var sig := getSignature(ack.rest);
          if sig.None? then None
          else Some(MsgOf(sender.value, body.value, ack.value, sig.value, |data| - |ack.rest|))
  }

  function GetDecryptedMsg(data: seq<byte>): Option<Msg>
  {
    GetParts(GetSender, GetBody, GetVarStr, GetSignature, data)
  }

  // ------------------------------------------------------------- round trip

  lemma TwoInARow(get: Getter<nat>, x: seq<byte>, y: seq<byte>, a: nat, b: nat, tail: seq<byte>)
    requires get(x + (y + tail)) == Ok(a, y + tail) && get(y + tail) == Ok(b, tail)
    ensures GetTwo(get, x + y + tail) == Ok((a, b), tail)
  {
    assert x + y + tail == x + (y + tail);
  }

  lemma PairRoundTrip(a: nat, b: nat, tail: seq<byte>)
    requires a < TWO_64 && b < TWO_64 && |AddVarInt(a) + AddVarInt(b) + tail| < TWO_31
    ensures GetPair(AddVarInt(a) + AddVarInt(b) + tail) == Ok((a, b), tail)
  {
    VarIntRoundTrip(a, AddVarInt(b) + tail);
    VarIntRoundTrip(b, tail);
    TwoInARow(GetVarInt, AddVarInt(a), AddVarInt(b), a, b, tail);
  }

  lemma HeadRoundTrip(p: Plain, tail: seq<byte>)
    requires Sized(p) && |BuildHead(p) + tail| < TWO_31
    ensures GetHead(BuildHead(p) + tail) == Ok(Head(1, p.version, p.stream, PUBKEY_BEHAVIORS), tail)
  {
    var t2 := Be(PUBKEY_BEHAVIORS, 4) + tail;
    var t1 := AddVarInt(p.version) + AddVarInt(p.stream) + t2;
    assert BuildHead(p) + tail == AddVarInt(1) + t1;
    VarIntRoundTrip(1, t1);
    PairRoundTrip(p.version, p.stream, t2);
    Pow256Values();
    FixedRoundTrip(PUBKEY_BEHAVIORS, 4, tail);
  }

  lemma DifficultyRoundTrip(p: Plain, tail: seq<byte>)
    requires Sized(p) && |Difficulty(p) + tail| < TWO_31
    ensures GetDifficulty(p.version, Difficulty(p) + tail)
      == Ok(if p.version < 3 then (MIN_TRIALS, MIN_EXTRA_BYTES) else (p.trials, p.extraBytes), tail)
  {
    if p.version < 3 {
      assert [] + tail == tail;
    } else {
      PairRoundTrip(p.trials, p.extraBytes, tail);
    }
  }

  lemma VarOctetsRoundTrip(str: seq<byte>, tail: seq<byte>)
    requires |AddVarInt(|str|) + str + tail| < TWO_31
    ensures GetVarStr(AddVarInt(|str|) + str + tail) == Ok(str, tail)
  {
    assert AddVarInt(|str|) + str + tail == AddVarInt(|str|) + (str + tail);
    VarIntRoundTrip(|str|, str + tail);
    assert (str + tail)[..|str|] == str && (str + tail)[|str|..] == tail;
  }

  lemma BodyRoundTrip(p: Plain, tail: seq<byte>)
    requires Sized(p) && |BuildBody(p) + tail| < TWO_31
    ensures GetBody(BuildBody(p) + tail) == Ok((p.ripe, p.encoding, p.content), tail)
  {
    var e, c := AddVarInt(p.encoding), AddVarInt(|p.content|) + p.content;
    assert BuildBody(p) + tail == p.ripe + (e + (c + tail));
    VarIntRoundTrip(p.encoding, c + tail);
    VarOctetsRoundTrip(p.content, tail);
    BodyFrom(GetVarInt, GetVarStr, p.ripe, e, c, tail, p.encoding, p.content);
  }

  lemma BodyFrom(getInt: Getter<nat>, getStr: Getter<seq<byte>>, ripe: seq<byte>, e: seq<byte>, c: seq<byte>,
                 tail: seq<byte>, encoding: nat, content: seq<byte>)
    requires |ripe| == RIPE_LENGTH
    requires getInt(e + (c + tail)) == Ok(encoding, c + tail) && getStr(c + tail) == Ok(content, tail)
    ensures GetBodyBy(getInt, getStr, ripe + (e + (c + tail))) == Ok((ripe, encoding, content), tail)
  {
    var s := ripe + (e + (c + tail));
    assert s[..RIPE_LENGTH] == ripe && s[RIPE_LENGTH..] == e + (c + tail);
  }

  /** What the recipient learns of the difficulty: version 2 senders cannot say. */
  function Heard(p: Plain): Plain
  {
    if p.version < 3 then p.(trials := MIN_TRIALS, extraBytes := MIN_EXTRA_BYTES) else p
  }

  lemma KeysRoundTrip(a: seq<byte>, b: seq<byte>, tail: seq<byte>)
    requires |a| == |b| == KEY_LENGTH
    ensures GetKeys(a + b + tail) == Ok((a, b), tail)
  {
    var s := a + b + tail;
    assert s[..KEY_LENGTH] == a && s[KEY_LENGTH..2 * KEY_LENGTH] == b && s[2 * KEY_LENGTH..] == tail;
  }

  /** A text is read as a value, whatever follows it. */
  ghost predicate Reads<T>(get: Getter<T>, text: seq<byte>, value: T, tail: seq<byte>)
  {
    |text| + |tail| < TWO_31 ==> get(text + tail) == Ok(value, tail)
  }

  ghost predicate AlwaysReads<T>(get: Getter<T>, text: seq<byte>, value: T)
  {
    forall tail {:trigger Reads(get, text, value, tail)} :: Reads(get, text, value, tail)
  }

  ghost predicate DifficultyReads(get: (nat, seq<byte>) -> Parsed<(nat, nat)>, version: nat, text: seq<byte>,
                                  value: (nat, nat), tail: seq<byte>)
  {
    |text| + |tail| < TWO_31 ==> get(version, text + tail) == Ok(value, tail)
  }

  lemma SenderFrom(getHead: Getter<Head>, getKeys: Getter<Pair>, getDifficulty: (nat, seq<byte>) -> Parsed<(nat, nat)>,
                   h: seq<byte>, k: seq<byte>, d: seq<byte>, tail: seq<byte>, head: Head, keys: Pair, difficulty: (nat, nat))
    requires Reads(getHead, h, head, k + (d + tail)) && Reads(getKeys, k, keys, d + tail)
    requires DifficultyReads(getDifficulty, head.version, d, difficulty, tail)
    requires |h + k + d| + |tail| < TWO_31
    ensures GetSenderBy(getHead, getKeys, getDifficulty, h + k + d + tail) == Ok(Sender(head, keys, difficulty), tail)
  {
    assert h + k + d + tail == h + (k + (d + tail));
  }

  lemma HeadReads(p: Plain, tail: seq<byte>)
    requires Sized(p)
    ensures Reads(GetHead, BuildHead(p), Head(1, p.version, p.stream, PUBKEY_BEHAVIORS), tail)
  {
    if |BuildHead(p)| + |tail| < TWO_31 {
      HeadRoundTrip(p, tail);
    }
  }

  lemma DifficultyIsRead(p: Plain, tail: seq<byte>)
    requires Sized(p)
    ensures DifficultyReads(GetDifficulty, p.version, Difficulty(p), (Heard(p).trials, Heard(p).extraBytes), tail)
  {
    if |Difficulty(p)| + |tail| < TWO_31 {
      DifficultyRoundTrip(p, tail);
    }
  }

  lemma KeysRead(p: Plain, tail: seq<byte>)
    requires Sized(p)
    ensures Reads(GetKeys, p.signingKey + p.encryptionKey, (p.signingKey, p.encryptionKey), tail)
  {
    KeysRoundTrip(p.signingKey, p.encryptionKey, tail);
  }

  lemma SenderRead(p: Plain, tail: seq<byte>)
    requires Sized(p)
    ensures Reads(GetSender, BuildSender(p), SenderOf(p), tail)
  {
    if |BuildSender(p)| + |tail| < TWO_31 {
      var keys := p.signingKey + p.encryptionKey;
      HeadReads(p, keys + (Difficulty(p) + tail));
      KeysRead(p, Difficulty(p) + tail);
      DifficultyIsRead(p, tail);
      SenderFrom(GetHead, GetKeys, GetDifficulty, BuildHead(p), keys, Difficulty(p), tail,
                 SenderOf(p).head, SenderOf(p).keys, SenderOf(p).difficulty);
    }
  }

  lemma BodyRead(p: Plain, tail: seq<byte>)
    requires Sized(p)
    ensures Reads(GetBody, BuildBody(p), (p.ripe, p.encoding, p.content), tail)
  {
    if |BuildBody(p)| + |tail| < TWO_31 {
      BodyRoundTrip(p, tail);
    }
  }

  lemma AckRead(ack: seq<byte>, tail: seq<byte>)
    requires |ack| < 0xfd
    ensures Reads(GetVarStr, [|ack|] + ack, ack, tail)
  {
    if |[|ack|] + ack| + |tail| < TWO_31 {
      VarStrRoundTrip(ack, tail);
    }
  }

  lemma SignatureRoundTrip(sig: seq<byte>)
    requires |AddVarInt(|sig|) + sig| < TWO_31
    ensures GetSignature(AddVarInt(|sig|) + sig) == Some(sig)
  {
    VarIntRoundTrip(|sig|, sig);
  }

  function SenderOf(p: Plain): Sender
  {
    Sender(Head(1, p.version, p.stream, PUBKEY_BEHAVIORS), (p.signingKey, p.encryptionKey),
           (Heard(p).trials, Heard(p).extraBytes))
  }

  lemma MsgOfPlain(p: Plain, ack: seq<byte>, sig: seq<byte>, signed: nat)
    ensures MsgOf(SenderOf(p), (p.ripe, p.encoding, p.content), ack, sig, signed)
      == Msg(1, PUBKEY_BEHAVIORS, Heard(p), ack, sig, signed)
  {
  }

  /** The four parts and how each is read. */
  ghost predicate PartsRead(getSender: Getter<Sender>, getBody: Getter<Body>, getAck: Getter<seq<byte>>,
                            getSignature: seq<byte> -> Option<seq<byte>>, a: seq<byte>, b: seq<byte>, c: seq<byte>,
                            d: seq<byte>, e: seq<byte>, v: Sender, body: Body, ack: seq<byte>)
  {
    var t3 := d + e;
    var t2 := c + t3;
    var t1 := b + t2;
    && getSender(a + t1) == Ok(v, t1) && getBody(t1) == Ok(body, t2)
    && getAck(t2) == Ok(ack, t3) && getSignature(t3) == Some(e)
  }

  lemma PartsFrom(getSender: Getter<Sender>, getBody: Getter<Body>, getAck: Getter<seq<byte>>,
                  getSignature: seq<byte> -> Option<seq<byte>>, a: seq<byte>, b: seq<byte>, c: seq<byte>,
                  d: seq<byte>, e: seq<byte>, v: Sender, body: Body, ack: seq<byte>)
    requires |a| + |b| + |c| + |d| + |e| < TWO_31 && getSignature(d + e) == Some(e)
    requires AlwaysReads(getSender, a, v) && AlwaysReads(getBody, b, body) && AlwaysReads(getAck, c, ack)
    ensures PartsRead(getSender, getBody, getAck, getSignature, a, b, c, d, e, v, body, ack)
  {
    assert Reads(getSender, a, v, b + (c + (d + e)));
    assert Reads(getBody, b, body, c + (d + e));
    assert Reads(getAck, c, ack, d + e);
  }

  /** A message with its signature, part by part. */
  function Joined(a: seq<byte>, b: seq<byte>, c: seq<byte>, d: seq<byte>, e: seq<byte>): seq<byte>
  {
    (a + b + c) + d + e
  }

  /** Four parts in a row are read one after the other. */
  lemma Composed(getSender: Getter<Sender>, getBody: Getter<Body>, getAck: Getter<seq<byte>>,
                 getSignature: seq<byte> -> Option<seq<byte>>, a: seq<byte>, b: seq<byte>, c: seq<byte>,
                 d: seq<byte>, e: seq<byte>, v: Sender, body: Body, ack: seq<byte>)
    requires PartsRead(getSender, getBody, getAck, getSignature, a, b, c, d, e, v, body, ack)
    ensures GetParts(getSender, getBody, getAck, getSignature, Joined(a, b, c, d, e))
      == Some(MsgOf(v, body, ack, e, |a + b + c|))
  {
    Regroup(a, b, c, d, e);
    Assemble(getSender, getBody, getAck, getSignature, a + (b + (c + (d + e))), v, b + (c + (d + e)), body, c + (d + e),
             ack, d + e, e);
  }

  lemma SignedIsJoined(p: Plain, ack: seq<byte>, sig: seq<byte>)
    requires |ack| < 0xfd
    ensures Signed(Build(p, ack), sig) == Joined(BuildSender(p), BuildBody(p), [|ack|] + ack, AddVarInt(|sig|), sig)
    ensures |Signed(Build(p, ack), sig)| == |BuildSender(p)| + |BuildBody(p)| + 1 + |ack| + |AddVarInt(|sig|)| + |sig|
  {
  }

  lemma SignedPrefix(message: seq<byte>, sig: seq<byte>)
    ensures |message| <= |Signed(message, sig)| && Signed(message, sig)[..|message|] == message
  {
  }

  lemma JoinedRoundTrip(p: Plain, ack: seq<byte>, sig: seq<byte>)
    requires Sized(p) && |ack| < 0xfd
    requires |BuildSender(p)| + |BuildBody(p)| + 1 + |ack| + |AddVarInt(|sig|)| + |sig| < TWO_31
    ensures GetDecryptedMsg(Joined(BuildSender(p), BuildBody(p), [|ack|] + ack, AddVarInt(|sig|), sig))
      == Some(MsgOf(SenderOf(p), (p.ripe, p.encoding, p.content), ack, sig, |BuildSender(p) + BuildBody(p) + ([|ack|] + ack)|))
  {
    forall tail { SenderRead(p, tail); }
    forall tail { BodyRead(p, tail); }
    forall tail { AckRead(ack, tail); }
    SignatureRoundTrip(sig);
    Reassembled(GetSender, GetBody, GetVarStr, GetSignature, BuildSender(p), BuildBody(p), [|ack|] + ack,
                AddVarInt(|sig|), sig, SenderOf(p), (p.ripe, p.encoding, p.content), ack);
  }

  lemma Reassembled(getSender: Getter<Sender>, getBody: Getter<Body>, getAck: Getter<seq<byte>>,
                    getSignature: seq<byte> -> Option<seq<byte>>, a: seq<byte>, b: seq<byte>, c: seq<byte>,
                    d: seq<byte>, e: seq<byte>, v: Sender, body: Body, ack: seq<byte>)
    requires |a| + |b| + |c| + |d| + |e| < TWO_31 && getSignature(d + e) == Some(e)
    requires AlwaysReads(getSender, a, v) && AlwaysReads(getBody, b, body) && AlwaysReads(getAck, c, ack)
    ensures GetParts(getSender, getBody, getAck, getSignature, Joined(a, b, c, d, e))
      == Some(MsgOf(v, body, ack, e, |a + b + c|))
  {
    PartsFrom(getSender, getBody, getAck, getSignature, a, b, c, d, e, v, body, ack);
    Composed(getSender, getBody, getAck, getSignature, a, b, c, d, e, v, body, ack);
  }

  /** Parsing what was built and signed returns every field, and the range that
      the recipient verifies is exactly the octets the sender signed. */
  lemma LayoutRoundTrip(p: Plain, ack: seq<byte>, sig: seq<byte>)
    requires Sized(p) && |ack| < 0xfd
    requires |Signed(Build(p, ack), sig)| < TWO_31
    ensures GetDecryptedMsg(Signed(Build(p, ack), sig))
      == Some(Msg(1, PUBKEY_BEHAVIORS, Heard(p), ack, sig, |Build(p, ack)|))
    ensures Signed(Build(p, ack), sig)[..|Build(p, ack)|] == Build(p, ack)
  {
    SignedIsJoined(p, ack, sig);
    SignedPrefix(Build(p, ack), sig);
    JoinedRoundTrip(p, ack, sig);
    MsgOfPlain(p, ack, sig, |Build(p, ack)|);
  }

  lemma Unsigned(getSender: Getter<Sender>, getBody: Getter<Body>, getAck: Getter<seq<byte>>,
                 getSignature: seq<byte> -> Option<seq<byte>>, a: seq<byte>, b: seq<byte>, c: seq<byte>,
                 tail: seq<byte>, v: Sender, body: Body, ack: seq<byte>)
    requires |a| + |b| + |c| + |tail| < TWO_31 && getSignature(tail).None?
    requires AlwaysReads(getSender, a, v) && AlwaysReads(getBody, b, body) && AlwaysReads(getAck, c, ack)
    ensures GetParts(getSender, getBody, getAck, getSignature, a + (b + (c + tail))).None?
  {
    assert Reads(getSender, a, v, b + (c + tail));
    assert Reads(getBody, b, body, c + tail);
    assert Reads(getAck, c, ack, tail);
  }

  lemma SignatureNeedsLength(n: nat, sig: seq<byte>)
    requires n < TWO_64 && n != |sig| && |AddVarInt(n) + sig| < TWO_31
    ensures GetSignature(AddVarInt(n) + sig).None?
  {
    VarIntRoundTrip(n, sig);
  }

  lemma BuiltRegroups(p: Plain, ack: seq<byte>, tail: seq<byte>)
    requires |ack| < 0xfd
    ensures Build(p, ack) + tail == BuildSender(p) + (BuildBody(p) + ([|ack|] + ack + tail))
    ensures |Build(p, ack) + tail| == |BuildSender(p)| + |BuildBody(p)| + |[|ack|] + ack| + |tail|
  {
  }

  /** A message is accepted if and only if its signature has the length that is said in front
      of it: a part of one, or one with something behind it, is refused. */
  lemma SignatureReachesEnd(p: Plain, ack: seq<byte>, n: nat, sig: seq<byte>)
    requires Sized(p) && |ack| < 0xfd && n < TWO_64
    requires |Build(p, ack) + (AddVarInt(n) + sig)| < TWO_31
    ensures GetDecryptedMsg(Build(p, ack) + (AddVarInt(n) + sig)).Some? <==> n == |sig|
  {
    if n == |sig| {
      assert Build(p, ack) + (AddVarInt(n) + sig) == Signed(Build(p, ack), sig);
      LayoutRoundTrip(p, ack, sig);
    } else {
      var tail := AddVarInt(n) + sig;
      SignatureNeedsLength(n, sig);
      BuiltRegroups(p, ack, tail);
      forall tail { SenderRead(p, tail); }
      forall tail { BodyRead(p, tail); }
      forall tail { AckRead(ack, tail); }
      Unsigned(GetSender, GetBody, GetVarStr, GetSignature, BuildSender(p), BuildBody(p), [|ack|] + ack, tail,
               SenderOf(p), (p.ripe, p.encoding, p.content), ack);
    }
  }

  lemma Regroup(a: seq<byte>, b: seq<byte>, c: seq<byte>, d: seq<byte>, e: seq<byte>)
    ensures (a + b + c) + d + e == a + (b + (c + (d + e)))
    ensures ((a + b + c) + d + e)[..|a + b + c|] == a + b + c
  {
  }

  /** The parts put together. */
  lemma Assemble(getSender: Getter<Sender>, getBody: Getter<Body>, getAck: Getter<seq<byte>>,
                 getSignature: seq<byte> -> Option<seq<byte>>, data: seq<byte>, v: Sender, t1: seq<byte>,
                 body: Body, t2: seq<byte>, ack: seq<byte>, t3: seq<byte>, sig: seq<byte>)
    requires getSender(data) == Ok(v, t1) && getBody(t1) == Ok(body, t2) && getAck(t2) == Ok(ack, t3)
    requires getSignature(t3) == Some(sig) && |t3| <= |data|
    ensures GetParts(getSender, getBody, getAck, getSignature, data) == Some(MsgOf(v, body, ack, sig, |data| - |t3|))
  {
  }
}
